/**
 * The decision logic of `scrape_profile` and `process_url`: the identifier
 * taken from the URL, the choice between the post element and the whole page,
 * the artefact names built from both, the stripped text, the intended file
 * writes and the result record. What the browser returns is an input.
 */
module Scraper {
  import opened Wrappers
  import opened PyStr
  import opened PosixPath

  // ---------------------------------------------------------------------------
  // identifier
  // ---------------------------------------------------------------------------

  /**
   * `url.split('/')[-1]`: the text after the last `/`, with no other
   * normalisation; the empty string when the URL ends in `/`.
   */
  function TweetId(url: string): (id: string)
    ensures '/' !in id
  {
    LastSegment(url, '/')
  }

  /**
   * The identifier is exactly the URL's tail behind its last `/` (or the whole
   * URL when it has none), and it is empty when the URL ends in `/`.
   */
  lemma TweetIdIsTail(url: string)
    ensures var id := TweetId(url);
      && |id| <= |url| && url == url[..|url| - |id|] + id
      && (|id| == |url| || url[|url| - |id| - 1] == '/')
      && (url != [] && url[|url| - 1] == '/' ==> id == [])
  {
    LastSegmentIsSuffix(url, '/');
    var id := TweetId(url);
    assert id != [] ==> id[|id| - 1] == url[|url| - 1] && id[|id| - 1] in id;
  }

  /** The status URL `https://x.com/user/status/12345`: its identifier is the status number. */
  lemma TweetIdOfStatusUrl()
    ensures TweetId("https://x.com/user/status/12345") == "12345"
  {
    assert "https://x.com/user/status/12345" == "https://x.com/user/status/" + "12345";
    LastSegmentUnique("https://x.com/user/status/12345", '/', "https://x.com/user/status/", "12345");
  }

  // ---------------------------------------------------------------------------
  // artefact naming
  // ---------------------------------------------------------------------------

  /** Whether the first `[data-testid="tweet"]` element or the whole page was captured. */
  datatype Mode = TweetMode | PageMode

  /** The two artefacts a run writes. */
  datatype Artifact = Screenshot | TextFile

  /** The mode the branch on the post element selects. */
  function ModeOf(tweet: Option<string>): (m: Mode)
    ensures m == TweetMode <==> tweet.Some?
  {
    if tweet.Some? then TweetMode else PageMode
  }

  /** `tweet_` or `page_`: slash-free, ending in `_`, and told apart by its first letter. */
  function Prefix(m: Mode): (p: string)
    ensures p != [] && p[|p| - 1] == '_' && '/' !in p
    ensures p[0] == 't' <==> m == TweetMode
  {
    match m
    case TweetMode => "tweet_"
    case PageMode => "page_"
  }

  function Extension(k: Artifact): string {
    match k
    case Screenshot => ".png"
    case TextFile => ".txt"
  }

  /** The file name `<prefix><id>.<ext>`; slash-free whenever the identifier is. */
  function ArtifactName(m: Mode, id: string, k: Artifact): (name: string)
    ensures '/' !in id ==> '/' !in name
    ensures name != [] && name[0] != '/'
  {
    Prefix(m) + id + Extension(k)
  }

  /** Distinct modes, identifiers or artefact kinds never share a file name. */
  lemma ArtifactNameInjective(m1: Mode, id1: string, k1: Artifact, m2: Mode, id2: string, k2: Artifact)
    ensures ArtifactName(m1, id1, k1) == ArtifactName(m2, id2, k2) <==> m1 == m2 && id1 == id2 && k1 == k2
  {
    var n1, n2 := ArtifactName(m1, id1, k1), ArtifactName(m2, id2, k2);
    var p1, p2 := Prefix(m1), Prefix(m2);
    if n1 == n2 {
      assert n1[0] == p1[0] && n2[0] == p2[0];
      assert m1 == m2;
      assert n1[|n1| - 1] == Extension(k1)[3] && n2[|n2| - 1] == Extension(k2)[3];
      assert k1 == k2;
      assert |id1| == |id2|;
      assert id1 == n1[|p1|..|p1| + |id1|];
      assert id2 == n2[|p2|..|p2| + |id2|];
    }
  }

  /** Where the two stores live: `screenshot_dir` and `text_dir`. */
  datatype Config = Config(screenshotDir: string, textDir: string)

  /** The stores `static/tweet_screenshots` and `static/tweet_texts` the server sets up. */
  const DefaultConfig: Config := Config("static/tweet_screenshots", "static/tweet_texts")

  /** Those are `os.path.join("static", "tweet_screenshots")` and `os.path.join("static", "tweet_texts")`. */
  lemma DefaultConfigDirs()
    ensures DefaultConfig.screenshotDir == PathJoin("static", "tweet_screenshots")
    ensures DefaultConfig.textDir == PathJoin("static", "tweet_texts")
  {
    PathJoinRelative("static", "tweet_screenshots");
    PathJoinRelative("static", "tweet_texts");
  }

  /** Screenshots go into the screenshot store, text into the text store. */
  function StoreOf(cfg: Config, k: Artifact): string {
    match k
    case Screenshot => cfg.screenshotDir
    case TextFile => cfg.textDir
  }

  /**
   * `os.path.join(<store>, f"<prefix>{tweet_id}<ext>")`: the store's directory
   * part followed by the file name, since that name never starts with `/`.
   */
  function ArtifactPath(cfg: Config, m: Mode, id: string, k: Artifact): (path: string)
    ensures path == DirPrefix(StoreOf(cfg, k)) + ArtifactName(m, id, k)
  {
    PathJoin(StoreOf(cfg, k), ArtifactName(m, id, k))
  }

  /** An artefact's base name is its file name `<prefix><id>.<ext>`. */
  lemma ArtifactPathBasename(cfg: Config, m: Mode, id: string, k: Artifact)
    requires '/' !in id
    ensures LastSegment(ArtifactPath(cfg, m, id, k), '/') == ArtifactName(m, id, k)
  {
    PathJoinBasename(StoreOf(cfg, k), ArtifactName(m, id, k));
  }

  /**
   * For a slash-free identifier, two artefact paths coincide only when mode,
   * identifier and kind all agree; in particular the post and page artefacts
   * of one identifier never overwrite each other, and the screenshot and the
   * text file of one run are different files.
   */
  lemma ArtifactPathInjective(cfg: Config, m1: Mode, id1: string, k1: Artifact, m2: Mode, id2: string, k2: Artifact)
    requires '/' !in id1 && '/' !in id2
    ensures ArtifactPath(cfg, m1, id1, k1) == ArtifactPath(cfg, m2, id2, k2) <==> m1 == m2 && id1 == id2 && k1 == k2
  {
    ArtifactNameInjective(m1, id1, k1, m2, id2, k2);
    ArtifactPathBasename(cfg, m1, id1, k1);
    ArtifactPathBasename(cfg, m2, id2, k2);
  }

  // ---------------------------------------------------------------------------
  // one scrape
  // ---------------------------------------------------------------------------

  /**
   * What the browser produced, as far as the scraper looks at it. `NotRendered`:
   * launching, navigating or waiting for the primary column failed. Otherwise the
   * text content of the first post element, if there is one, and the page's
   * text, `None` when reading it raised. As written, server.py:100 calls
   * `page.text_content()` without the selector the method requires, so the
   * program always gets `None` there; `Some` is the page text it evidently meant
   * to read.
   */
  datatype Render =
    | NotRendered
    | Rendered(tweet: Option<string>, pageText: Option<string>)

  /** What is written: the captured image (its pixels are not modelled) or a text body. */
  datatype Content = Image | Text(body: string)

  datatype FileWrite = FileWrite(path: string, content: Content)

  /** The dictionary `scrape_profile` returns. */
  datatype Record = Record(id: string, text: string, screenshot: string, textFile: string)

  /** The writes made, in order, and the record, `None` when the call raised. */
  datatype Outcome = Outcome(writes: seq<FileWrite>, result: Option<Record>)

  /** The raw text the chosen branch strips: the post element's, else the page's. */
  function RawText(tweet: Option<string>, pageText: Option<string>): Option<string> {
    if tweet.Some? then tweet else pageText
  }

  /** `scrape_profile(url)` with the browser's answers given as `render`. */
  function Scrape(cfg: Config, url: string, render: Render): (o: Outcome)
    ensures render.NotRendered? ==> o == Outcome([], None)
    ensures o.result.Some? <==> render.Rendered? && RawText(render.tweet, render.pageText).Some?
    ensures o.result.Some? ==>
      var rec := o.result.value;
      && rec.id == TweetId(url)
      && rec.text == Strip(RawText(render.tweet, render.pageText).value)
      && rec.screenshot == ArtifactPath(cfg, ModeOf(render.tweet), rec.id, Screenshot)
      && rec.textFile == ArtifactPath(cfg, ModeOf(render.tweet), rec.id, TextFile)
      && o.writes == [FileWrite(rec.screenshot, Image), FileWrite(rec.textFile, Text(rec.text))]
    ensures render.Rendered? && o.result.None? ==>
      o.writes == [FileWrite(ArtifactPath(cfg, PageMode, TweetId(url), Screenshot), Image)]
  {
    match render
    case NotRendered => Outcome([], None)
    case Rendered(tweet, pageText) =>
      var id := TweetId(url);
      match tweet
      case Some(raw) =>
        var shot := ArtifactPath(cfg, TweetMode, id, Screenshot);
        var textPath := ArtifactPath(cfg, TweetMode, id, TextFile);
        var text := Strip(raw);
        Outcome([FileWrite(shot, Image), FileWrite(textPath, Text(text))],
                Some(Record(id, text, shot, textPath)))
      case None =>
        var shot := ArtifactPath(cfg, PageMode, id, Screenshot);
        match pageText
        case None => Outcome([FileWrite(shot, Image)], None)
        case Some(raw) =>
          var text := Strip(raw);
          var textPath := ArtifactPath(cfg, PageMode, id, TextFile);
          Outcome([FileWrite(shot, Image), FileWrite(textPath, Text(text))],
                  Some(Record(id, text, shot, textPath)))
  }

  /**
   * A successful scrape names both artefacts after the mode the branch chose
   * and the one identifier taken from the URL: the screenshot is the file
   * `<prefix><id>.png` in the screenshot store and the text file is
   * `<prefix><id>.txt` in the text store.
   */
  lemma ScrapeNaming(cfg: Config, url: string, render: Render)
    ensures var o := Scrape(cfg, url, render);
      o.result.Some? ==>
        var rec := o.result.value; var m := ModeOf(render.tweet);
        && rec.screenshot == DirPrefix(cfg.screenshotDir) + ArtifactName(m, rec.id, Screenshot)
        && rec.textFile == DirPrefix(cfg.textDir) + ArtifactName(m, rec.id, TextFile)
        && LastSegment(rec.screenshot, '/') == ArtifactName(m, rec.id, Screenshot)
        && LastSegment(rec.textFile, '/') == ArtifactName(m, rec.id, TextFile)
  {
    var o := Scrape(cfg, url, render);
    if o.result.Some? {
      var rec := o.result.value;
      var m := ModeOf(render.tweet);
      ArtifactPathBasename(cfg, m, rec.id, Screenshot);
      ArtifactPathBasename(cfg, m, rec.id, TextFile);
    }
  }

  /**
   * A successful scrape writes two different files, and the text it returns has
   * no whitespace at either end and is exactly what went into the text file.
   */
  lemma ScrapeWrites(cfg: Config, url: string, render: Render)
    ensures var o := Scrape(cfg, url, render);
      o.result.Some? ==>
        var rec := o.result.value;
        && |o.writes| == 2
        && o.writes[0].path != o.writes[1].path
        && o.writes[0].path == rec.screenshot && o.writes[0].content == Image
        && o.writes[1].path == rec.textFile && o.writes[1].content == Text(rec.text)
        && Trimmed(rec.text)
  {
    var o := Scrape(cfg, url, render);
    if o.result.Some? {
      var id := TweetId(url);
      var m := ModeOf(render.tweet);
      ArtifactPathInjective(cfg, m, id, Screenshot, m, id, TextFile);
    }
  }

  /**
   * Running twice with the same URL and the same branch taken writes the same
   * two paths, so the second run overwrites the first; runs that take
   * different branches, or URLs with different identifiers, never share a path.
   */
  lemma ScrapePathsOverwriteOrSeparate(cfg: Config, url1: string, r1: Render, url2: string, r2: Render)
    requires Scrape(cfg, url1, r1).result.Some? && Scrape(cfg, url2, r2).result.Some?
    ensures var a, b := Scrape(cfg, url1, r1).result.value, Scrape(cfg, url2, r2).result.value;
      && (a.screenshot == b.screenshot <==> a.id == b.id && ModeOf(r1.tweet) == ModeOf(r2.tweet))
      && (a.textFile == b.textFile <==> a.id == b.id && ModeOf(r1.tweet) == ModeOf(r2.tweet))
      && a.screenshot != b.textFile
  {
    var id1, id2 := TweetId(url1), TweetId(url2);
    var m1, m2 := ModeOf(r1.tweet), ModeOf(r2.tweet);
    ArtifactPathInjective(cfg, m1, id1, Screenshot, m2, id2, Screenshot);
    ArtifactPathInjective(cfg, m1, id1, TextFile, m2, id2, TextFile);
    ArtifactPathInjective(cfg, m1, id1, Screenshot, m2, id2, TextFile);
  }

  /**
   * A URL ending in `/` yields the empty identifier: no placeholder is put in
   * its place, so the artefacts are named `tweet_.png`, `page_.txt` and so on.
   */
  lemma ScrapeTrailingSlash(cfg: Config, url: string, render: Render)
    requires url != [] && url[|url| - 1] == '/'
    ensures var o := Scrape(cfg, url, render);
      o.result.Some? ==>
        && o.result.value.id == []
        && o.result.value.screenshot == ArtifactPath(cfg, ModeOf(render.tweet), [], Screenshot)
        && o.result.value.textFile == ArtifactPath(cfg, ModeOf(render.tweet), [], TextFile)
  {
    TweetIdIsTail(url);
  }

  /**
   * The page branch as written: `page.text_content()` with no selector raises,
   * so only the page screenshot is written, no record is returned, and the
   * handler redirects with the failure message.
   */
  lemma ScrapePageAsWritten(cfg: Config, url: string)
    ensures Scrape(cfg, url, Rendered(None, None))
      == Outcome([FileWrite(ArtifactPath(cfg, PageMode, TweetId(url), Screenshot), Image)], None)
    ensures url != [] ==>
      ProcessUrl(cfg, Some(url), Rendered(None, None))
        == Handled([FileWrite(ArtifactPath(cfg, PageMode, TweetId(url), Screenshot), Image)], RedirectToIndex(ScrapeFailed))
  {
  }

  /**
   * The page branch as intended, saving all visible text of the page: the page
   * screenshot and the stripped text are written to two different files named
   * `page_<id>.png` and `page_<id>.txt`, and the result page shows them.
   */
  lemma ScrapePageIntended(cfg: Config, url: string, t: string)
    ensures var o, id := Scrape(cfg, url, Rendered(None, Some(t))), TweetId(url);
      var shot, textPath := ArtifactPath(cfg, PageMode, id, Screenshot), ArtifactPath(cfg, PageMode, id, TextFile);
      && o == Outcome([FileWrite(shot, Image), FileWrite(textPath, Text(Strip(t)))],
                      Some(Record(id, Strip(t), shot, textPath)))
      && shot != textPath
      && LastSegment(shot, '/') == ArtifactName(PageMode, id, Screenshot)
      && LastSegment(textPath, '/') == ArtifactName(PageMode, id, TextFile)
      && Trimmed(Strip(t))
    ensures url != [] ==>
      var id := TweetId(url);
      ProcessUrl(cfg, Some(url), Rendered(None, Some(t))).reply
        == ResultPage(ArtifactPath(cfg, PageMode, id, Screenshot), ArtifactPath(cfg, PageMode, id, TextFile), Strip(t))
  {
    ScrapeWrites(cfg, url, Rendered(None, Some(t)));
    ScrapeNaming(cfg, url, Rendered(None, Some(t)));
  }

  /** The file names for the empty identifier are the bare prefix and extension. */
  lemma EmptyIdArtifactName(m: Mode, k: Artifact)
    ensures ArtifactName(m, [], k) == Prefix(m) + Extension(k)
  {
    assert Prefix(m) + [] == Prefix(m);
  }

  /** A status post whose text is padded with whitespace, under the default stores. */
  lemma ScrapeStatusExample(pageText: Option<string>)
    ensures Scrape(DefaultConfig, "https://x.com/user/status/12345", Rendered(Some("  hello world  \n"), pageText))
      == Outcome(
           [FileWrite("static/tweet_screenshots/tweet_12345.png", Image),
            FileWrite("static/tweet_texts/tweet_12345.txt", Text("hello world"))],
           Some(Record("12345", "hello world",
                       "static/tweet_screenshots/tweet_12345.png", "static/tweet_texts/tweet_12345.txt")))
  {
    var url, raw := "https://x.com/user/status/12345", "  hello world  \n";
    TweetIdOfStatusUrl();
    StripOfPaddedText();
    var shot := ArtifactPath(DefaultConfig, TweetMode, "12345", Screenshot);
    var textPath := ArtifactPath(DefaultConfig, TweetMode, "12345", TextFile);
    assert Scrape(DefaultConfig, url, Rendered(Some(raw), pageText))
      == Outcome([FileWrite(shot, Image), FileWrite(textPath, Text("hello world"))],
                 Some(Record("12345", "hello world", shot, textPath)));
    StatusScreenshotPath();
    StatusTextPath();
  }

  /** The status post's padded text strips to its words. */
  lemma StripOfPaddedText()
    ensures Strip("  hello world  \n") == "hello world"
  {
    assert "  hello world  \n" == "  " + "hello world" + "  \n";
    StripUnique("  ", "hello world", "  \n");
  }

  /** The status post's screenshot path under the default stores. */
  lemma StatusScreenshotPath()
    ensures ArtifactPath(DefaultConfig, TweetMode, "12345", Screenshot) == "static/tweet_screenshots/tweet_12345.png"
  {
    assert ArtifactName(TweetMode, "12345", Screenshot) == "tweet_12345.png";
    assert DirPrefix("static/tweet_screenshots") == "static/tweet_screenshots/";
    LiteralConcat("static/tweet_screenshots/", "tweet_12345.png", "static/tweet_screenshots/tweet_12345.png");
  }

  /** The status post's text file path under the default stores. */
  lemma StatusTextPath()
    ensures ArtifactPath(DefaultConfig, TweetMode, "12345", TextFile) == "static/tweet_texts/tweet_12345.txt"
  {
    assert ArtifactName(TweetMode, "12345", TextFile) == "tweet_12345.txt";
    assert DirPrefix("static/tweet_texts") == "static/tweet_texts/";
    LiteralConcat("static/tweet_texts/", "tweet_12345.txt", "static/tweet_texts/tweet_12345.txt");
  }

  /** Two strings whose characters line up with a third concatenate to it. */
  lemma LiteralConcat(a: string, b: string, c: string)
    requires |c| == |a| + |b| && c[..|a|] == a && c[|a|..] == b
    ensures a + b == c
  {
    assert c == c[..|a|] + c[|a|..];
  }

  // ---------------------------------------------------------------------------
  // the request handler around it
  // ---------------------------------------------------------------------------

  /** The dictionary view of a record, with its four keys. */
  function RecordDict(rec: Record): (d: map<string, string>)
    ensures d.Keys == {"id", "text", "screenshot", "text_file"}
  {
    map["id" := rec.id, "text" := rec.text, "screenshot" := rec.screenshot, "text_file" := rec.textFile]
  }

  /** Python's `d.get(key, default)`. */
  function DictGet(d: map<string, string>, key: string, default: string): (v: string)
    ensures key in d ==> v == d[key]
    ensures key !in d ==> v == default
  {
    if key in d then d[key] else default
  }

  /** `profile_data.get("id", "unknown")` always finds the identifier, even an empty one. */
  lemma IdLookupNeverDefaults(rec: Record)
    ensures DictGet(RecordDict(rec), "id", "unknown") == rec.id
  {
  }

  /** The flash message category `process_url` redirects with. */
  datatype Flash = MissingUrl | ScrapeFailed

  datatype Reply =
    | RedirectToIndex(flash: Flash)
    | ResultPage(imagePath: string, textPath: string, text: string)

  /** The writes a request caused and the page it answered with. */
  datatype Handled = Handled(writes: seq<FileWrite>, reply: Reply)

  /**
   * `process_url`: a missing or empty `profile_url` field redirects to the index
   * without scraping; otherwise the scrape's record is rendered, or its failure
   * redirects to the index.
   */
  function ProcessUrl(cfg: Config, profileUrl: Option<string>, render: Render): (h: Handled)
    ensures profileUrl.None? || profileUrl.value == [] ==> h == Handled([], RedirectToIndex(MissingUrl))
    ensures profileUrl.Some? && profileUrl.value != [] ==>
      var o := Scrape(cfg, profileUrl.value, render);
      && h.writes == o.writes
      && (h.reply.ResultPage? <==> o.result.Some?)
      && (o.result.Some? ==> h.reply == ResultPage(o.result.value.screenshot, o.result.value.textFile, o.result.value.text))
      && (o.result.None? ==> h.reply == RedirectToIndex(ScrapeFailed))
  {
    if profileUrl.None? || profileUrl.value == [] then
      Handled([], RedirectToIndex(MissingUrl))
    else
      var o := Scrape(cfg, profileUrl.value, render);
      match o.result
      case None => Handled(o.writes, RedirectToIndex(ScrapeFailed))
      case Some(rec) => Handled(o.writes, ResultPage(rec.screenshot, rec.textFile, rec.text))
  }
}
