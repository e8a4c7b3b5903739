/**
 * The crawl state machine `Chiver` and the gated stream that drives it.
 *
 * Each `Download` call does at most one fetch and, when it succeeds, moves one stage
 * along the cycle None -> Page -> SubPage -> Image -> None; a failed call leaves the
 * stage as it was. The network, the HTML selector, the
 * JSON decoder, the URI parser and the random source are given as an `Env`.
 */
module Chive {
  import opened Wrappers
  import App
  import Parser
  import Rand

  /** The crawl stage (`None` is the idle stage). */
  datatype State = None | Page | SubPage | Image

  /** The body of a response, read as text (for pages) or as bytes (for images). */
  datatype Body = BodyFailed(reason: string) | Body(text: string, bytes: seq<App.byte>)

  /** The outcome of a GET: a transport failure, or a status (with its display text) and a body. */
  datatype Fetch = SendFailed(reason: string) | Responded(status: nat, statusText: string, body: Body)

  /** Everything a step consults that lies outside the crawler. */
  datatype Env = Env(
    fetch: string -> Fetch,                                // the HTTP client
    cards: string -> seq<Parser.Element>,                  // anchors the card selector matches in a listing page
    decode: string -> Result<Parser.Json, string>,         // the JSON decoder
    parseUri: string -> Option<Parser.Uri>,                // the URI parser
    choices: seq<nat>)                                     // the random source of the one shuffle a step may do

  /** A pacing token received from the scheduling channel. */
  datatype Token = Token

  /** All state of a `Chiver` that the crawl reads or writes. */
  datatype Crawl = Crawl(pages: seq<string>, subPages: seq<string>, images: seq<string>, state: State, running: bool)

  /** The new state and the result of one `download` call. */
  datatype Step = Step(next: Crawl, result: Result<App.Download, string>)

  /** The new state and the event the stream emits for one pull. */
  datatype Emitted = Emitted(next: Crawl, out: App.Download)

  /** The stage after `s` in the cycle. */
  function Succ(s: State): State
  {
    match s
    case None => Page
    case Page => SubPage
    case SubPage => Image
    case Image => State.None
  }

  /** The position of a stage in the cycle. */
  function Index(s: State): nat
  {
    match s
    case None => 0
    case Page => 1
    case SubPage => 2
    case Image => 3
  }

  /** The progress marker reported when stage `i` (0, 1 or 2) completes. */
  function StageMarker(i: nat): int
  {
    if i == 0 then 1 else if i == 1 then 10 else 20
  }

  function DropLast(s: seq<string>): seq<string>
    requires s != []
  {
    s[..|s| - 1]
  }

  function Last(s: seq<string>): string
    requires s != []
  {
    s[|s| - 1]
  }

  /** `send().await?.text().await?`: the page text, or the error that stopped it. */
  function PageText(f: Fetch): Result<string, string>
  {
    match f
    case SendFailed(m) => Err(m)
    case Responded(_, _, BodyFailed(m)) => Err(m)
    case Responded(_, _, Body(t, _)) => Ok(t)
  }

  /** What one `download` call does, as a function of the state before it. */
  function DownloadStep(c: Crawl, env: Env): (r: Step)
    ensures r.next.running == c.running
  {
    match c.state
    case None =>
      var pages := if c.pages == [] then Parser.InitChivePages(env.choices) else c.pages;
      Step(c.(pages := pages, state := Page), Ok(App.Progress(1)))
    case Page =>
      if c.subPages != [] then Step(c.(state := SubPage), Ok(App.Progress(10)))
      else if c.pages == [] then Step(c, Err("Pages is empty!"))
      else
        var popped := c.(pages := DropLast(c.pages));
        (match PageText(env.fetch(Last(c.pages)))
         case Err(m) => Step(popped, Err(m))
         case Ok(html) =>
           // parse_chive_page always succeeds, so its `?` never returns early
           var links := Parser.ParseChivePage(env.cards(html), env.choices).value;
           Step(popped.(subPages := links, state := SubPage), Ok(App.Progress(10))))
    case SubPage =>
      if c.images != [] then Step(c.(state := Image), Ok(App.Progress(20)))
      else if c.subPages == [] then Step(c, Err("SubPages is empty!"))
      else
        var popped := c.(subPages := DropLast(c.subPages));
        (match PageText(env.fetch(Last(c.subPages)))
         case Err(m) => Step(popped, Err(m))
         case Ok(html) =>
           match Parser.ParseChiveSub(html, env.decode, env.parseUri, env.choices)
           case Err(m) => Step(popped, Err(m))
           case Ok(links) => Step(popped.(images := links, state := Image), Ok(App.Progress(20))))
    case Image =>
      if c.images == [] then Step(c, Err("Images is empty!"))
      else
        var image := Last(c.images);
        var popped := c.(images := DropLast(c.images));
        match env.fetch(image)
        case SendFailed(m) => Step(popped, Err(m))
        case Responded(status, shown, body) =>
          if status != 200 then Step(popped, Err("Http status: " + shown + ", " + image))
          else
            match body
            case BodyFailed(m) => Step(popped, Err(m))
            case Body(_, bytes) => Step(popped.(state := State.None), Ok(App.Done(bytes, image)))
  }

  /** The event sent to the application for a `download` result. */
  function Emit(r: Result<App.Download, string>): App.Download
  {
    match r
    case Ok(d) => d
    case Err(m) => App.Error(m)
  }

  /** The stream's gate: a stopped crawler starts a new cycle at the idle stage. */
  function Opened(c: Crawl): Crawl
  {
    if c.running then c else c.(running := true, state := State.None)
  }

  /** One pull of the stream: gate, one `download`, and stop after a terminal event. */
  function StreamStep(c: Crawl, env: Env): Emitted
  {
    var s := DownloadStep(Opened(c), env);
    var out := Emit(s.result);
    Emitted(if App.IsTerminal(out) then s.next.(running := false) else s.next, out)
  }

  class Chiver {
    var pages: seq<string>
    var subPages: seq<string>
    var images: seq<string>
    var isRunning: bool
    var state: State

    function Snapshot(): Crawl
      reads this
    {
      Crawl(pages, subPages, images, state, isRunning)
    }

    /** `Chiver::default`: empty stacks, stopped, idle. */
    constructor ()
      ensures Snapshot() == Crawl([], [], [], State.None, false)
    {
      pages := [];
      subPages := [];
      images := [];
      isRunning := false;
      state := State.None;
    }

    /** `download`: one stage of the crawl. */
    method Download(env: Env) returns (r: Result<App.Download, string>)
      modifies this
      ensures Step(Snapshot(), r) == DownloadStep(old(Snapshot()), env)
    {
      match state
      case None =>
        if pages == [] {
          pages := Parser.InitChivePages(env.choices);
        }
        state := Page;
        r := Ok(App.Progress(1));
      case Page =>
        if subPages == [] {
          if pages == [] {
            return Err("Pages is empty!");
          }
          var page := pages[|pages| - 1];
          pages := pages[..|pages| - 1];
          var content := PageText(env.fetch(page));
          if content.Err? {
            return Err(content.error);
          }
          // parse_chive_page always succeeds, so its `?` never returns early
          var parsed := Parser.ParseChivePage(env.cards(content.value), env.choices);
          subPages := parsed.value;
        }
        state := SubPage;
        r := Ok(App.Progress(10));
      case SubPage =>
        if images == [] {
          if subPages == [] {
            return Err("SubPages is empty!");
          }
          var subPage := subPages[|subPages| - 1];
          subPages := subPages[..|subPages| - 1];
          var content := PageText(env.fetch(subPage));
          if content.Err? {
            return Err(content.error);
          }
          var parsed := Parser.ParseChiveSub(content.value, env.decode, env.parseUri, env.choices);
          if parsed.Err? {
            return Err(parsed.error);
          }
          images := parsed.value;
        }
        state := Image;
        r := Ok(App.Progress(20));
      case Image =>
        if images == [] {
          return Err("Images is empty!");
        }
        var image := images[|images| - 1];
        images := images[..|images| - 1];
        var response := env.fetch(image);
        if response.SendFailed? {
          return Err(response.reason);
        }
        if response.status != 200 {
          return Err("Http status: " + response.statusText + ", " + image);
        }
        if response.body.BodyFailed? {
          return Err(response.body.reason);
        }
        state := State.None;
        r := Ok(App.Done(response.body.bytes, image));
    }

    /** The two-token resume: only a stopped crawler waits, and it restarts at the idle stage. */
    method Gate(received: seq<Token>)
      requires !isRunning && |received| == 2
      modifies this
      ensures Snapshot() == Opened(old(Snapshot()))
    {
      isRunning := true;
      state := State.None;
    }

    /**
     * One pull of the stream: when stopped, consume the two tokens `received` and
     * open the gate; run one `download`; a `Done` or `Error` stops the crawler.
     */
    method Poll(received: seq<Token>, env: Env) returns (out: App.Download)
      requires isRunning ==> received == []
      requires !isRunning ==> |received| == 2
      modifies this
      ensures Emitted(Snapshot(), out) == StreamStep(old(Snapshot()), env)
    {
      if !isRunning {
        Gate(received);
      }
      var r := Download(env);
      out := Emit(r);
      if App.IsTerminal(out) {
        isRunning := false;
      }
    }
  }

  // ---------------------------------------------------------------------------
  // Properties of one download step
  // ---------------------------------------------------------------------------

  /**
   * A successful step moves exactly one stage along the cycle and reports that
   * stage's marker (or `Done` from the image stage); a failed step stays put. The
   * idle stage never fails, and the running flag is not the step's business.
   */
  lemma DownloadAdvancesOneStage(c: Crawl, env: Env)
    ensures DownloadStep(c, env).next.running == c.running
    ensures DownloadStep(c, env).result.Ok? ==> DownloadStep(c, env).next.state == Succ(c.state)
    ensures DownloadStep(c, env).result.Err? ==> DownloadStep(c, env).next.state == c.state
    ensures c.state == State.None ==> DownloadStep(c, env).result.Ok?
    ensures DownloadStep(c, env).result.Ok? ==>
      if c.state == Image then DownloadStep(c, env).result.value.Done?
      else DownloadStep(c, env).result.value == App.Progress(StageMarker(Index(c.state)))
  {
  }

  /**
   * The idle stage fills `pages` with the 282 distinct listing URLs only when it is
   * empty, leaves a non-empty `pages` alone, touches no other stack, and moves on to
   * `Page` with `Progress(1)`.
   */
  lemma IdleStage(c: Crawl, env: Env)
    requires c.state == State.None
    ensures DownloadStep(c, env).result == Ok(App.Progress(1))
    ensures DownloadStep(c, env).next.state == Page
    ensures DownloadStep(c, env).next.subPages == c.subPages && DownloadStep(c, env).next.images == c.images
    ensures c.pages != [] ==> DownloadStep(c, env).next.pages == c.pages
    ensures c.pages == [] ==>
      var pages := DownloadStep(c, env).next.pages;
      |pages| == Parser.TotalPages && Rand.Distinct(pages) && forall u :: u in pages <==> Parser.IsListingUrl(u)
  {
    Parser.InitChivePagesSpec(env.choices);
  }

  /**
   * `Page` with sub-pages still queued, and `SubPage` with images still queued, do no
   * fetch (the environment plays no part) and only move on.
   */
  lemma StageSkipsWhenFilled(c: Crawl, env: Env, other: Env)
    requires (c.state == Page && c.subPages != []) || (c.state == SubPage && c.images != [])
    ensures DownloadStep(c, env) == DownloadStep(c, other)
    ensures DownloadStep(c, env).next == c.(state := Succ(c.state))
    ensures DownloadStep(c, env).result == Ok(App.Progress(StageMarker(Index(c.state))))
  {
  }

  /**
   * `Page` with no sub-pages queued pops exactly one page and fetches it. It fails
   * with "Pages is empty!", changing nothing, when there is no page. It succeeds
   * exactly when the page text arrives, and then `subPages` becomes a permutation of
   * the hrefs on that page; on failure `subPages` is not reassigned.
   */
  lemma PageStage(c: Crawl, env: Env)
    requires c.state == Page && c.subPages == []
    ensures c.pages == [] ==> DownloadStep(c, env) == Step(c, Err("Pages is empty!"))
    ensures c.pages != [] ==>
      var s := DownloadStep(c, env);
      var page := PageText(env.fetch(Last(c.pages)));
      s.next.pages == DropLast(c.pages) && s.next.images == c.images &&
      (s.result.Ok? <==> page.Ok?) &&
      (page.Ok? ==> (s.result == Ok(App.Progress(10)) &&
         multiset(s.next.subPages) == multiset(Parser.Attrs(env.cards(page.value), "href")))) &&
      (page.Err? ==> s.result == Err(page.error) && s.next.subPages == c.subPages)
  {
  }

  /**
   * `SubPage` with no images queued pops exactly one sub-page and fetches it. It fails
   * with "SubPages is empty!", changing nothing, when there is none. It succeeds
   * exactly when the text arrives and the gallery parses, and then `images` is the
   * parsed gallery; on failure `images` is not reassigned.
   */
  lemma SubPageStage(c: Crawl, env: Env)
    requires c.state == SubPage && c.images == []
    ensures c.subPages == [] ==> DownloadStep(c, env) == Step(c, Err("SubPages is empty!"))
    ensures c.subPages != [] ==>
      var s := DownloadStep(c, env);
      var page := PageText(env.fetch(Last(c.subPages)));
      s.next.subPages == DropLast(c.subPages) && s.next.pages == c.pages &&
      (s.result.Ok? <==> page.Ok? && Parser.ParseChiveSub(page.value, env.decode, env.parseUri, env.choices).Ok?) &&
      (s.result.Ok? ==> (s.result == Ok(App.Progress(20)) &&
         s.next.images == Parser.ParseChiveSub(page.value, env.decode, env.parseUri, env.choices).value)) &&
      (s.result.Err? ==> s.next.images == c.images)
  {
  }

  /**
   * `Image` always pops one image. With none it fails with "Images is empty!",
   * changing nothing. Otherwise it succeeds exactly when the response has status 200
   * and its bytes arrive, giving `Done(bytes, url)` for the popped `url` and returning
   * to idle; any other status fails with a message naming the status and the URL,
   * and the stage stays `Image`.
   */
  lemma ImageStage(c: Crawl, env: Env)
    requires c.state == Image
    ensures c.images == [] ==> DownloadStep(c, env) == Step(c, Err("Images is empty!"))
    ensures c.images != [] ==>
      var s := DownloadStep(c, env);
      var url := Last(c.images);
      var f := env.fetch(url);
      s.next.images == DropLast(c.images) && s.next.pages == c.pages && s.next.subPages == c.subPages &&
      (s.result.Ok? <==> f.Responded? && f.status == 200 && f.body.Body?) &&
      (s.result.Ok? ==> s.result == Ok(App.Done(f.body.bytes, url)) && s.next.state == State.None) &&
      (f.Responded? && f.status != 200 ==>
         s.result == Err("Http status: " + f.statusText + ", " + url) && s.next.state == Image)
  {
  }

  /**
   * On failure the stage is unchanged and exactly the popped stack is one shorter:
   * the URL taken before the fetch is not put back. Only an empty stack leaves the
   * state entirely as it was.
   */
  lemma FailureConsumesPoppedUrl(c: Crawl, env: Env)
    requires DownloadStep(c, env).result.Err?
    ensures c.state != State.None
    ensures c.state == Page ==>
      DownloadStep(c, env).next == if c.pages == [] then c else c.(pages := DropLast(c.pages))
    ensures c.state == SubPage ==>
      DownloadStep(c, env).next == if c.subPages == [] then c else c.(subPages := DropLast(c.subPages))
    ensures c.state == Image ==>
      DownloadStep(c, env).next == if c.images == [] then c else c.(images := DropLast(c.images))
  {
  }

  /** Refill only when empty: a non-empty stack is either kept or loses its last URL. */
  lemma StacksRefilledOnlyWhenEmpty(c: Crawl, env: Env)
    ensures var n := DownloadStep(c, env).next;
      (c.pages == [] || n.pages == c.pages || n.pages == DropLast(c.pages)) &&
      (c.subPages == [] || n.subPages == c.subPages || n.subPages == DropLast(c.subPages)) &&
      (c.images == [] || n.images == c.images || n.images == DropLast(c.images))
  {
    match c.state
    case None =>
    case Page =>
    case SubPage =>
    case Image =>
  }

  /** One image queued and a good response: one step drains it and returns to idle. */
  lemma SingleImageDrained(c: Crawl, env: Env, url: string, text: string, bytes: seq<App.byte>, shown: string)
    requires c.state == Image && c.images == [url]
    requires env.fetch(url) == Responded(200, shown, Body(text, bytes))
    ensures DownloadStep(c, env) == Step(c.(images := [], state := State.None), Ok(App.Done(bytes, url)))
  {
  }

  /**
   * A listing page without card links leaves `subPages` empty, so unless images are
   * queued the next step fails with "SubPages is empty!".
   */
  lemma EmptyListingExhaustsSubPages(c: Crawl, env: Env, later: Env)
    requires c.state == Page && c.subPages == [] && c.pages != [] && c.images == []
    requires PageText(env.fetch(Last(c.pages))).Ok?
    requires Parser.Attrs(env.cards(PageText(env.fetch(Last(c.pages))).value), "href") == []
    ensures DownloadStep(c, env).result == Ok(App.Progress(10))
    ensures DownloadStep(c, env).next.subPages == []
    ensures DownloadStep(DownloadStep(c, env).next, later).result == Err("SubPages is empty!")
  {
    var s := DownloadStep(c, env);
    assert multiset(s.next.subPages) == multiset{};
  }

  // ---------------------------------------------------------------------------
  // Properties of the gated stream
  // ---------------------------------------------------------------------------

  /**
   * A stopped crawler restarts at the idle stage before its step; a running one
   * steps where it is. Afterwards it is running exactly when the event was a
   * `Progress`. The stacks are whatever the step left.
   */
  lemma StreamGate(c: Crawl, env: Env)
    ensures !c.running ==> StreamStep(c, env) == StreamStep(c.(running := true, state := State.None), env)
    ensures StreamStep(c, env).next.running <==> StreamStep(c, env).out.Progress?
    ensures var d := DownloadStep(Opened(c), env).next;
      var n := StreamStep(c, env).next;
      n.pages == d.pages && n.subPages == d.subPages && n.images == d.images && n.state == d.state
  {
    DownloadAdvancesOneStage(Opened(c), env);
  }

  /** The events and the final state of pulls driven by successive environments, up to the first terminal event. */
  datatype Trace = Trace(final: Crawl, outs: seq<App.Download>)

  function Run(c: Crawl, envs: seq<Env>): Trace
    decreases |envs|
  {
    if envs == [] then Trace(c, [])
    else
      var e := StreamStep(c, envs[0]);
      if App.IsTerminal(e.out) then Trace(e.next, [e.out])
      else
        var rest := Run(e.next, envs[1..]);
        Trace(rest.final, [e.out] + rest.outs)
  }

  /** One pull of a running crawler: either a terminal event that stops it, or the current stage's marker and the next stage. */
  lemma RunningPull(c: Crawl, env: Env)
    requires c.running
    ensures App.IsTerminal(StreamStep(c, env).out) ==> !StreamStep(c, env).next.running
    ensures !App.IsTerminal(StreamStep(c, env).out) ==>
      c.state != Image && StreamStep(c, env).out == App.Progress(StageMarker(Index(c.state))) &&
      StreamStep(c, env).next.running && StreamStep(c, env).next.state == Succ(c.state)
  {
    DownloadAdvancesOneStage(c, env);
  }

  /**
   * From a running crawler at stage `i`, pulls report the markers of stages i, i+1, ...
   * and end with exactly one terminal event within 4 - i pulls, leaving it stopped.
   */
  lemma {:induction false} RunFromStage(c: Crawl, envs: seq<Env>)
    requires c.running && |envs| >= 4 - Index(c.state)
    ensures var t := Run(c, envs);
      1 <= |t.outs| <= 4 - Index(c.state) && App.IsTerminal(t.outs[|t.outs| - 1]) && !t.final.running &&
      forall j :: 0 <= j < |t.outs| - 1 ==> t.outs[j] == App.Progress(StageMarker(Index(c.state) + j))
    decreases 4 - Index(c.state)
  {
    var e := StreamStep(c, envs[0]);
    RunningPull(c, envs[0]);
    if !App.IsTerminal(e.out) {
      var rest := Run(e.next, envs[1..]);
      RunFromStage(e.next, envs[1..]);
      var t := Run(c, envs);
      assert t.outs == [e.out] + rest.outs;
      forall j | 0 <= j < |t.outs| - 1 ensures t.outs[j] == App.Progress(StageMarker(Index(c.state) + j)) {
        if j > 0 {
          assert t.outs[j] == rest.outs[j - 1];
        }
      }
    }
  }

  /**
   * One gated cycle emits a prefix of Progress(1), Progress(10), Progress(20)
   * followed by exactly one `Done` or `Error`: at most four events, after which the
   * crawler is stopped again and waits for the next two tokens.
   */
  lemma GatedCycle(c: Crawl, envs: seq<Env>)
    requires !c.running && |envs| >= 4
    ensures var t := Run(c, envs);
      1 <= |t.outs| <= 4 && App.IsTerminal(t.outs[|t.outs| - 1]) && !t.final.running &&
      forall j :: 0 <= j < |t.outs| - 1 ==> t.outs[j] == App.Progress(StageMarker(j))
  {
    var g := c.(running := true, state := State.None);
    StreamGate(c, envs[0]);
    assert Run(c, envs) == Run(g, envs);
    RunFromStage(g, envs);
  }
}
