/**
 * The render session of `PdfGenerator` (src/PdfGenerator.ts): one lazily
 * launched browser shared by all renders, a cached copy of the table
 * generator script, and the steps of one render. The headless engine is
 * abstract: every call the session makes on it is appended to a trace, and
 * what an engine call returns (the browser handle, the PDF bytes, which page
 * call rejects) is an input. Nothing in `getPdf` catches a rejection, so a
 * rejected page call ends the render with the page left open.
 */
module PdfGenerator {
  import opened JsValue

  /** Render options as `page.pdf` receives them: top-level keys to values. */
  type PdfOptions = map<string, Value>

  type Bytes = seq<bv8>

  /** An asset to inject: a file path or inline content, with an optional explicit type. */
  datatype Asset = Asset(path: Option<string>, content: Option<string>, kind: Option<string>)

  /** The two environment toggles read when the browser is launched. */
  datatype Environment = Environment(noSandbox: bool, noHeadless: bool)

  /** One call on the headless engine. */
  datatype EngineCall =
    | Launch(browser: nat, args: seq<string>, headless: bool)
    | CloseBrowser(browser: nat)
    | NewPage
    | EmulateMediaType(media: string)
    | SetContent(html: string)
    | AddStyleTag(content: Option<string>, path: Option<string>)
    | AddScriptTag(content: Option<string>, path: Option<string>)
    | Pdf(options: PdfOptions)
    | ClosePage

  /**
   * What launching the browser comes to: a browser; a launch that throws; or
   * a browser whose `disconnected` handler ran before the render resumed, so
   * that the handle is null again when the render checks it.
   */
  datatype LaunchOutcome = Launched(browser: nat) | LaunchFailed | LostBeforeUse(browser: nat)

  /** How `getPdf` ends: the printed PDF, or the rejection it passes on. */
  datatype RenderResult = Rendered(pdf: Bytes) | LaunchError | BrowserNotStarted | PageCallFailed

  /** The arguments the browser is launched with. */
  function BrowserArgs(env: Environment): (args: seq<string>)
    ensures |args| == (if env.noSandbox then 5 else 3)
    ensures args[..3] == ["--proxy-server='direct://'", "--proxy-bypass-list=*", "--disable-web-security"]
    ensures env.noSandbox ==> args[3..] == ["--no-sandbox", "--disable-setuid-sandbox"]
    ensures env.noSandbox <==> "--no-sandbox" in args
  {
    ["--proxy-server='direct://'", "--proxy-bypass-list=*", "--disable-web-security"]
    + (if env.noSandbox then ["--no-sandbox", "--disable-setuid-sandbox"] else [])
  }

  /**
   * The engine calls one attempt to start the browser makes. The trace
   * records calls on a browser handle, so a launch that throws, which
   * yields no handle, leaves no call in it.
   */
  function StartCalls(env: Environment, launch: LaunchOutcome): seq<EngineCall> {
    match launch
    case Launched(b) => [Launch(b, BrowserArgs(env), !env.noHeadless)]
    case LaunchFailed => []
    case LostBeforeUse(b) => [Launch(b, BrowserArgs(env), !env.noHeadless), CloseBrowser(b)]
  }

  /** The browser handle after one attempt to start the browser. */
  function StartedBrowser(launch: LaunchOutcome): Option<nat> {
    if launch.Launched? then Some(launch.browser) else None
  }

  /**
   * `Object.assign(target, source)` on option objects: every top-level key of
   * `source` overrides, every other key of `target` is kept.
   */
  function Assign(target: PdfOptions, source: PdfOptions): (r: PdfOptions)
    ensures r.Keys == target.Keys + source.Keys
    ensures forall k :: k in source ==> r[k] == source[k]
    ensures forall k :: k in target && k !in source ==> r[k] == target[k]
  {
    target + source
  }

  /** A4, 2cm top and bottom margins, 1cm left and right, backgrounds printed. */
  function DefaultPdfOptions(): PdfOptions {
    map[
      "format" := Str("A4"),
      "margin" := Obj(map["top" := Str("2cm"), "bottom" := Str("2cm"), "left" := Str("1cm"), "right" := Str("1cm")]),
      "printBackground" := Bool(true)
    ]
  }

  /** The options `page.pdf` receives: the defaults, overridden key by key by the caller's. */
  function EffectivePdfOptions(options: Option<PdfOptions>): (r: PdfOptions)
    ensures r.Keys == DefaultPdfOptions().Keys + (if options.Some? then options.value.Keys else {})
    ensures options.Some? ==> forall k :: k in options.value ==> r[k] == options.value[k]
    ensures forall k :: k in DefaultPdfOptions() && (options.None? || k !in options.value) ==> r[k] == DefaultPdfOptions()[k]
  {
    if options.Some? then Assign(DefaultPdfOptions(), options.value) else DefaultPdfOptions()
  }

  /** A caller's `margin` replaces the whole default margin object: the override is shallow. */
  lemma MarginOverrideIsShallow(top: string)
    ensures var r := EffectivePdfOptions(Some(map["margin" := Obj(map["top" := Str(top)])]));
      && r["margin"] == Obj(map["top" := Str(top)])
      && "right" !in r["margin"].props
      && r["format"] == Str("A4")
      && r["printBackground"] == Bool(true)
  {
  }

  /** The kind of an asset: its explicit type, else the extension of its path, else none. */
  function AssetKind(a: Asset, ext: string -> string): string {
    if a.kind.Some? then a.kind.value
    else if a.path.Some? then ext(a.path.value)
    else ""
  }

  /** The tag one asset is injected with: a style tag for `css`, a script tag for `js`, nothing otherwise. */
  function Injection(a: Asset, ext: string -> string): (r: Option<EngineCall>)
    ensures r == Some(AddStyleTag(a.content, a.path)) <==> AssetKind(a, ext) == "css"
    ensures r == Some(AddScriptTag(a.content, a.path)) <==> AssetKind(a, ext) == "js"
    ensures r.None? <==> AssetKind(a, ext) != "css" && AssetKind(a, ext) != "js"
  {
    var kind := AssetKind(a, ext);
    if kind == "css" then Some(AddStyleTag(a.content, a.path))
    else if kind == "js" then Some(AddScriptTag(a.content, a.path))
    else None
  }

  /** An asset with neither a type nor a path is skipped, whatever its content. */
  lemma UntypedPathlessAssetSkipped(content: Option<string>, ext: string -> string)
    ensures Injection(Asset(None, content, None), ext) == None
  {
  }

  function InjectionCalls(a: Asset, ext: string -> string): (calls: seq<EngineCall>) {
    match Injection(a, ext)
    case Some(c) => [c]
    case None => []
  }

  /** The tag injections for a list of assets, in list order. */
  function InjectCalls(includes: seq<Asset>, ext: string -> string): (calls: seq<EngineCall>)
    ensures |calls| <= |includes|
    ensures forall i :: 0 <= i < |calls| ==> calls[i].AddStyleTag? || calls[i].AddScriptTag?
  {
    if includes == [] then [] else InjectionCalls(includes[0], ext) + InjectCalls(includes[1..], ext)
  }

  /** Injecting a list and then one more asset is injecting the longer list. */
  lemma {:induction false} InjectCallsAppend(includes: seq<Asset>, a: Asset, ext: string -> string)
    ensures InjectCalls(includes + [a], ext) == InjectCalls(includes, ext) + InjectionCalls(a, ext)
  {
    if includes == [] {
      assert includes + [a] == [a];
    } else {
      assert (includes + [a])[1..] == includes[1..] + [a];
      InjectCallsAppend(includes[1..], a, ext);
    }
  }

  /** Every asset whose kind is `css` or `js` is injected, and in list order. */
  lemma {:induction false} InjectCallsConcat(xs: seq<Asset>, ys: seq<Asset>, ext: string -> string)
    ensures InjectCalls(xs + ys, ext) == InjectCalls(xs, ext) + InjectCalls(ys, ext)
  {
    if xs == [] {
      assert xs + ys == ys;
    } else {
      assert (xs + ys)[1..] == xs[1..] + ys;
      InjectCallsConcat(xs[1..], ys, ext);
    }
  }

  /** The calls that open the page and set its content, when there is some. */
  function OpeningCalls(template: string): seq<EngineCall> {
    [NewPage, EmulateMediaType("screen")] + (if template != "" then [SetContent(template)] else [])
  }

  /** The calls that print the page and close it. */
  function ClosingCalls(options: Option<PdfOptions>): seq<EngineCall> {
    [Pdf(EffectivePdfOptions(options)), ClosePage]
  }

  /** The page calls of one render once a browser is available. */
  function RenderCalls(template: string, includes: Option<seq<Asset>>, options: Option<PdfOptions>, ext: string -> string): seq<EngineCall> {
    OpeningCalls(template) + (if includes.Some? then InjectCalls(includes.value, ext) else []) + ClosingCalls(options)
  }

  /**
   * A render opens a page, switches to screen media, sets the content only
   * when there is some, injects the assets, prints once and closes the page,
   * in that order.
   */
  lemma RenderCallsOrder(template: string, includes: Option<seq<Asset>>, options: Option<PdfOptions>, ext: string -> string)
    ensures var c := RenderCalls(template, includes, options, ext);
      && |c| >= 4
      && c[0] == NewPage
      && c[1] == EmulateMediaType("screen")
      && c[|c| - 2] == Pdf(EffectivePdfOptions(options))
      && c[|c| - 1] == ClosePage
      && (forall i :: 0 <= i < |c| && c[i].Pdf? ==> i == |c| - 2)
      && (forall i :: 0 <= i < |c| && c[i].NewPage? ==> i == 0)
      && (forall i :: 0 <= i < |c| && c[i].ClosePage? ==> i == |c| - 1)
      && ((exists i :: 0 <= i < |c| && c[i].SetContent?) <==> template != "")
      && (template != "" ==> c[2] == SetContent(template))
  {
    var c := RenderCalls(template, includes, options, ext);
    var inj := if includes.Some? then InjectCalls(includes.value, ext) else [];
    var set_ := if template != "" then [SetContent(template)] else [];
    assert c == [NewPage, EmulateMediaType("screen")] + set_ + inj + [Pdf(EffectivePdfOptions(options)), ClosePage];
    if template != "" {
      assert c[2].SetContent?;
    }
    forall i | 0 <= i < |c|
      ensures c[i].Pdf? ==> i == |c| - 2
      ensures c[i].NewPage? ==> i == 0
      ensures c[i].ClosePage? ==> i == |c| - 1
      ensures c[i].SetContent? ==> i == 2 && template != ""
    {
      if 2 + |set_| <= i < 2 + |set_| + |inj| {
        assert c[i] == inj[i - 2 - |set_|];
      }
    }
  }

  /**
   * Whether one of `calls` rejects: `failAt` numbers, from 0, the first page
   * call that rejects, if any does.
   */
  predicate Fails(calls: seq<EngineCall>, failAt: Option<nat>) {
    failAt.Some? && failAt.value < |calls|
  }

  /** The calls actually made: all of them, or those up to and including the one that rejects. */
  function Issued(calls: seq<EngineCall>, failAt: Option<nat>): seq<EngineCall> {
    if Fails(calls, failAt) then calls[..failAt.value + 1] else calls
  }

  /** The numbering of `failAt` seen from the call numbered `offset` on. */
  function Shift(failAt: Option<nat>, offset: nat): Option<nat> {
    if failAt.Some? && failAt.value >= offset then Some(failAt.value - offset) else None
  }

  /**
   * Making the calls `a` and then `b`: a rejection within `a` ends the calls
   * there; otherwise `b` is made with the numbering shifted past `a`.
   */
  lemma IssuedConcat(a: seq<EngineCall>, b: seq<EngineCall>, failAt: Option<nat>)
    ensures Fails(a, failAt) ==> Fails(a + b, failAt) && Issued(a + b, failAt) == Issued(a, failAt)
    ensures !Fails(a, failAt) ==>
      && (Fails(a + b, failAt) <==> Fails(b, Shift(failAt, |a|)))
      && Issued(a + b, failAt) == a + Issued(b, Shift(failAt, |a|))
  {
    if Fails(a, failAt) {
      assert (a + b)[..failAt.value + 1] == a[..failAt.value + 1];
    } else if Fails(b, Shift(failAt, |a|)) {
      var k := failAt.value - |a|;
      assert (a + b)[..failAt.value + 1] == a + b[..k + 1];
    }
  }

  /** Shifting twice is shifting by the sum. */
  lemma ShiftShift(failAt: Option<nat>, x: nat, y: nat)
    ensures Shift(Shift(failAt, x), y) == Shift(failAt, x + y)
  {
  }

  /**
   * One more asset of `_includeAssets`, none of the earlier tag calls having
   * rejected: its tag call (if any) follows the earlier ones, and when it
   * rejects, the calls made for the whole list end with it.
   */
  lemma InjectStep(includes: seq<Asset>, i: nat, ext: string -> string, failAt: Option<nat>)
    requires i < |includes| && !Fails(InjectCalls(includes[..i], ext), failAt)
    ensures var pre := InjectCalls(includes[..i], ext);
      var one := InjectionCalls(includes[i], ext);
      && InjectCalls(includes[..i + 1], ext) == pre + one
      && (Fails(one, Shift(failAt, |pre|)) ==>
            Fails(InjectCalls(includes, ext), failAt) && Issued(InjectCalls(includes, ext), failAt) == pre + one)
      && (!Fails(one, Shift(failAt, |pre|)) ==> !Fails(pre + one, failAt))
  {
    var pre := InjectCalls(includes[..i], ext);
    var one := InjectionCalls(includes[i], ext);
    assert includes[..i + 1] == includes[..i] + [includes[i]];
    InjectCallsAppend(includes[..i], includes[i], ext);
    IssuedConcat(pre, one, failAt);
    if Fails(one, Shift(failAt, |pre|)) {
      InjectStopsAt(includes, i + 1, ext, failAt);
    }
  }

  /** A tag call that rejects as the last call for `includes[..k]` ends the calls for the whole list. */
  lemma InjectStopsAt(includes: seq<Asset>, k: nat, ext: string -> string, failAt: Option<nat>)
    requires k <= |includes|
    requires Fails(InjectCalls(includes[..k], ext), failAt)
    requires Issued(InjectCalls(includes[..k], ext), failAt) == InjectCalls(includes[..k], ext)
    ensures Fails(InjectCalls(includes, ext), failAt)
    ensures Issued(InjectCalls(includes, ext), failAt) == InjectCalls(includes[..k], ext)
  {
    var done := InjectCalls(includes[..k], ext);
    assert includes[..k] + includes[k..] == includes;
    InjectCallsConcat(includes[..k], includes[k..], ext);
    IssuedConcat(done, InjectCalls(includes[k..], ext), failAt);
  }

  /** Where each call of a render sits. */
  lemma RenderCallsAt(template: string, includes: Option<seq<Asset>>, options: Option<PdfOptions>, ext: string -> string)
    ensures var c := RenderCalls(template, includes, options, ext);
      var p := if template != "" then 3 else 2;
      var inj := if includes.Some? then InjectCalls(includes.value, ext) else [];
      && |c| == p + |inj| + 2
      && c[0] == NewPage && c[1] == EmulateMediaType("screen")
      && (template != "" ==> c[2] == SetContent(template))
      && c[p..p + |inj|] == inj
      && c[p + |inj|] == Pdf(EffectivePdfOptions(options))
      && c[p + |inj| + 1] == ClosePage
  {
    var inj := if includes.Some? then InjectCalls(includes.value, ext) else [];
    var content := if template != "" then [SetContent(template)] else [];
    var head := [NewPage, EmulateMediaType("screen")] + content;
    var c := RenderCalls(template, includes, options, ext);
    assert c == head + inj + [Pdf(EffectivePdfOptions(options)), ClosePage];
    assert c[|head|..|head| + |inj|] == inj;
  }

  /**
   * A render whose page call rejects before the last one leaves the page
   * open: the page was opened, and it is never closed. A call that rejects
   * before `page.pdf` also means nothing was printed.
   */
  lemma FailedRenderLeavesPageOpen(template: string, includes: Option<seq<Asset>>, options: Option<PdfOptions>,
                                   ext: string -> string, failAt: Option<nat>)
    ensures var c := RenderCalls(template, includes, options, ext);
      var issued := Issued(c, failAt);
      Fails(c, failAt) && failAt.value < |c| - 1 ==>
        && issued[0] == NewPage
        && (forall i :: 0 <= i < |issued| ==> !issued[i].ClosePage?)
        && (failAt.value < |c| - 2 ==> forall i :: 0 <= i < |issued| ==> !issued[i].Pdf?)
  {
    var c := RenderCalls(template, includes, options, ext);
    RenderCallsOrder(template, includes, options, ext);
    if Fails(c, failAt) && failAt.value < |c| - 1 {
      var issued := Issued(c, failAt);
      forall i | 0 <= i < |issued| ensures issued[i] == c[i] { }
    }
  }

  /** A render whose calls all go through is every call of `RenderCalls`, the page closed last. */
  lemma SucceededRenderClosesPage(template: string, includes: Option<seq<Asset>>, options: Option<PdfOptions>,
                                  ext: string -> string, failAt: Option<nat>)
    ensures var c := RenderCalls(template, includes, options, ext);
      !Fails(c, failAt) ==> Issued(c, failAt) == c && c[|c| - 1] == ClosePage
  {
    RenderCallsOrder(template, includes, options, ext);
  }

  /** What one `getPdf` comes to: its result, the browser handle after it, and the engine calls it makes. */
  datatype Render = Render(result: RenderResult, browser: Option<nat>, calls: seq<EngineCall>)

  /** What the start of `getPdf` leaves: an error that ends it, if any, the browser handle and the calls made. */
  datatype Startup = Startup(error: Option<RenderResult>, browser: Option<nat>, calls: seq<EngineCall>)

  /**
   * The start of `getPdf` on a session whose handle is `browser0`: a missing
   * browser is launched; a launch that throws rejects with nothing done; a
   * browser lost before use rejects with "Browser not started".
   */
  function StartupSpec(env: Environment, browser0: Option<nat>, launch: LaunchOutcome): Startup {
    if browser0.Some? then Startup(None, browser0, [])
    else if launch.LaunchFailed? then Startup(Some(LaunchError), None, [])
    else if launch.LostBeforeUse? then Startup(Some(BrowserNotStarted), None, StartCalls(env, launch))
    else Startup(None, StartedBrowser(launch), StartCalls(env, launch))
  }

  /**
   * `getPdf` on a session whose handle is `browser0`: after the start, the
   * page calls are made until one rejects, and the PDF is returned only
   * when none does.
   */
  function GetPdfSpec(env: Environment, browser0: Option<nat>, template: string, includes: Option<seq<Asset>>,
                      pdfOptions: Option<PdfOptions>, launch: LaunchOutcome, printed: Bytes,
                      ext: string -> string, failAt: Option<nat>): Render
  {
    var st := StartupSpec(env, browser0, launch);
    if st.error.Some? then Render(st.error.value, st.browser, st.calls)
    else
      var c := RenderCalls(template, includes, pdfOptions, ext);
      Render(if Fails(c, failAt) then PageCallFailed else Rendered(printed), st.browser, st.calls + Issued(c, failAt))
  }

  /**
   * An existing browser is reused: no launch, and the handle stays. Without
   * one, exactly one launch is attempted before any page call. A PDF is
   * returned only with a browser and only when every page call went
   * through, and then the last call closes the page.
   */
  lemma GetPdfLaunchesOnlyWithoutBrowser(env: Environment, browser0: Option<nat>, template: string,
                                         includes: Option<seq<Asset>>, pdfOptions: Option<PdfOptions>,
                                         launch: LaunchOutcome, printed: Bytes, ext: string -> string, failAt: Option<nat>)
    ensures var g := GetPdfSpec(env, browser0, template, includes, pdfOptions, launch, printed, ext, failAt);
      && (browser0.Some? ==> g.browser == browser0 && forall i :: 0 <= i < |g.calls| ==> !g.calls[i].Launch?)
      && (browser0.None? && |g.calls| > 0 ==> g.calls[0].Launch?)
      && (g.result.Rendered? ==>
            && g.result.pdf == printed && g.browser.Some?
            && g.calls[|g.calls| - 1] == ClosePage
            && !Fails(RenderCalls(template, includes, pdfOptions, ext), failAt))
  {
    var c := RenderCalls(template, includes, pdfOptions, ext);
    var g := GetPdfSpec(env, browser0, template, includes, pdfOptions, launch, printed, ext, failAt);
    SucceededRenderClosesPage(template, includes, pdfOptions, ext, failAt);
    if browser0.Some? {
      RenderCallsNoLaunch(template, includes, pdfOptions, ext);
      assert g.calls == Issued(c, failAt);
      forall i | 0 <= i < |g.calls| ensures !g.calls[i].Launch? {
        assert g.calls[i] == c[i];
      }
    } else if launch.Launched? {
      assert g.calls == [Launch(launch.browser, BrowserArgs(env), !env.noHeadless)] + Issued(c, failAt);
    }
  }

  /** No page call of a render is a launch. */
  lemma RenderCallsNoLaunch(template: string, includes: Option<seq<Asset>>, options: Option<PdfOptions>,
                            ext: string -> string)
    ensures var c := RenderCalls(template, includes, options, ext);
      forall i :: 0 <= i < |c| ==> !c[i].Launch?
  {
    var head := OpeningCalls(template);
    var inj := if includes.Some? then InjectCalls(includes.value, ext) else [];
    var tail := ClosingCalls(options);
    var c := RenderCalls(template, includes, options, ext);
    forall i | 0 <= i < |c| ensures !c[i].Launch? {
      if i < |head| {
        assert c[i] == head[i];
      } else if i < |head| + |inj| {
        assert c[i] == inj[i - |head|];
      } else {
        assert c[i] == tail[i - |head| - |inj|];
      }
    }
  }

  /**
   * The process-wide session: the browser handle, the table generator script
   * cache, and the trace of engine calls made so far.
   */
  class Generator {
    const env: Environment
    var browser: Option<nat>
    var tableGeneratorScriptCache: string
    var trace: seq<EngineCall>
    /** How many times the table generator script file has been read. */
    ghost var scriptReads: nat

    constructor(env: Environment)
      ensures this.env == env
      ensures browser == None && tableGeneratorScriptCache == "" && trace == [] && scriptReads == 0
    {
      this.env := env;
      browser := None;
      tableGeneratorScriptCache := "";
      trace := [];
      scriptReads := 0;
    }

    /**
     * The `tableGeneratorScript` getter: reads the file only while the cache
     * is empty. `fileText` is the file's text, or `None` when the read
     * throws; the throw leaves the cache empty and counts no read, so the
     * next call tries again.
     */
    method TableGeneratorScript(fileText: Option<string>) returns (script: Option<string>)
      modifies this`tableGeneratorScriptCache, this`scriptReads
      ensures old(tableGeneratorScriptCache) != "" ==>
        script == Some(old(tableGeneratorScriptCache)) && tableGeneratorScriptCache == old(tableGeneratorScriptCache) && scriptReads == old(scriptReads)
      ensures old(tableGeneratorScriptCache) == "" && fileText.Some? ==>
        script == fileText && tableGeneratorScriptCache == fileText.value && scriptReads == old(scriptReads) + 1
      ensures old(tableGeneratorScriptCache) == "" && fileText.None? ==>
        script == None && tableGeneratorScriptCache == "" && scriptReads == old(scriptReads)
    {
      if tableGeneratorScriptCache == "" {
        if fileText.None? {
          return None;
        }
        tableGeneratorScriptCache := fileText.value;
        scriptReads := scriptReads + 1;
      }
      script := Some(tableGeneratorScriptCache);
    }

    /** `_startBrowser`: launch and keep the handle; a failed launch is reported. */
    method StartBrowser(launch: LaunchOutcome) returns (failed: bool)
      modifies this`browser, this`trace
      ensures failed <==> launch.LaunchFailed?
      ensures failed ==> browser == old(browser)
      ensures !failed ==> browser == StartedBrowser(launch)
      ensures trace == old(trace) + StartCalls(env, launch)
    {
      match launch {
        case LaunchFailed =>
          failed := true;
        case Launched(b) =>
          trace := trace + [Launch(b, BrowserArgs(env), !env.noHeadless)];
          browser := Some(b);
          failed := false;
        case LostBeforeUse(b) =>
          trace := trace + [Launch(b, BrowserArgs(env), !env.noHeadless), CloseBrowser(b)];
          browser := None;
          failed := false;
      }
    }

    /** The `disconnected` handler: close the old handle, null it, and launch again. */
    method OnDisconnected(relaunch: LaunchOutcome)
      modifies this`browser, this`trace
      ensures browser == StartedBrowser(relaunch)
      ensures trace == old(trace) + (if old(browser).Some? then [CloseBrowser(old(browser).value)] else []) + StartCalls(env, relaunch)
    {
      if browser.Some? {
        trace := trace + [CloseBrowser(browser.value)];
      }
      browser := None;
      var _ := StartBrowser(relaunch);
    }

    /** One page call, numbered `n` within its step; it rejects when `failAt` names it. */
    method PageCall(c: EngineCall, n: nat, failAt: Option<nat>) returns (ok: bool)
      modifies this`trace
      ensures trace == old(trace) + [c]
      ensures ok <==> failAt != Some(n)
    {
      trace := trace + [c];
      ok := failAt != Some(n);
    }

    /**
     * `_includeAssets`: inject the assets one after the other, in list
     * order; a tag call that rejects ends the loop and the rejection is
     * passed on.
     */
    method IncludeAssets(includes: seq<Asset>, ext: string -> string, failAt: Option<nat>) returns (ok: bool)
      modifies this`trace
      ensures ok <==> !Fails(InjectCalls(includes, ext), failAt)
      ensures trace == old(trace) + Issued(InjectCalls(includes, ext), failAt)
    {
      var n := 0;
      for i := 0 to |includes|
        invariant trace == old(trace) + InjectCalls(includes[..i], ext)
        invariant n == |InjectCalls(includes[..i], ext)|
        invariant !Fails(InjectCalls(includes[..i], ext), failAt)
      {
        InjectStep(includes, i, ext, failAt);
        ghost var before := trace;
        var tags;
        ok, tags := InjectAsset(includes[i], ext, n, failAt);
        AppendAssoc(old(trace), InjectCalls(includes[..i], ext), InjectionCalls(includes[i], ext));
        if !ok {
          return false;
        }
        n := n + tags;
      }
      assert includes[..|includes|] == includes;
      ok := true;
    }

    /**
     * One pass of the `_includeAssets` loop: the asset's kind is its type,
     * else its path's extension; a `css` asset gets a style tag, a `js`
     * asset a script tag, any other none. The tag call is numbered `n`.
     */
    method InjectAsset(asset: Asset, ext: string -> string, n: nat, failAt: Option<nat>) returns (ok: bool, tags: nat)
      modifies this`trace
      ensures trace == old(trace) + InjectionCalls(asset, ext)
      ensures tags == |InjectionCalls(asset, ext)|
      ensures ok <==> !Fails(InjectionCalls(asset, ext), Shift(failAt, n))
    {
      var kind := "";
      if asset.kind.Some? {
        kind := asset.kind.value;
      } else if asset.path.Some? {
        kind := ext(asset.path.value);
      }
      assert kind == AssetKind(asset, ext);
      ok, tags := true, 0;
      if kind == "css" {
        ok := PageCall(AddStyleTag(asset.content, asset.path), n, failAt);
        tags := 1;
      } else if kind == "js" {
        ok := PageCall(AddScriptTag(asset.content, asset.path), n, failAt);
        tags := 1;
      }
    }

    /** Open a page, emulate the screen media type and set the content when there is some. */
    method OpenPage(template: string, failAt: Option<nat>) returns (ok: bool)
      modifies this`trace
      ensures ok <==> !Fails(OpeningCalls(template), failAt)
      ensures trace == old(trace) + Issued(OpeningCalls(template), failAt)
    {
      ghost var c := OpeningCalls(template);
      ok := PageCall(NewPage, 0, failAt);
      if !ok {
        assert Issued(c, failAt) == [NewPage];
        return;
      }
      ok := PageCall(EmulateMediaType("screen"), 1, failAt);
      if !ok {
        assert Issued(c, failAt) == [NewPage, EmulateMediaType("screen")];
        return;
      }
      if template != "" {
        ok := PageCall(SetContent(template), 2, failAt);
      }
    }

    /** Print the page with the merged options, then close it. */
    method PrintAndClose(pdfOptions: Option<PdfOptions>, failAt: Option<nat>) returns (ok: bool)
      modifies this`trace
      ensures ok <==> !Fails(ClosingCalls(pdfOptions), failAt)
      ensures trace == old(trace) + Issued(ClosingCalls(pdfOptions), failAt)
    {
      var options := DefaultPdfOptions();
      if pdfOptions.Some? {
        options := Assign(options, pdfOptions.value);
      }
      ok := PageCall(Pdf(options), 0, failAt);
      if !ok {
        assert Issued(ClosingCalls(pdfOptions), failAt) == [Pdf(options)];
        return;
      }
      ok := PageCall(ClosePage, 1, failAt);
    }

    /**
     * The steps of `getPdf` once a browser is available: one page, used and
     * closed. A page call that rejects ends the render there.
     */
    method RenderOnPage(template: string, includes: Option<seq<Asset>>, pdfOptions: Option<PdfOptions>,
                        ext: string -> string, failAt: Option<nat>) returns (ok: bool)
      modifies this`trace
      ensures ok <==> !Fails(RenderCalls(template, includes, pdfOptions, ext), failAt)
      ensures trace == old(trace) + Issued(RenderCalls(template, includes, pdfOptions, ext), failAt)
    {
      ghost var head := OpeningCalls(template);
      ghost var inj := if includes.Some? then InjectCalls(includes.value, ext) else [];
      ghost var tail := ClosingCalls(pdfOptions);
      IssuedConcat(head + inj, tail, failAt);
      IssuedConcat(head, inj, failAt);
      ok := OpenPage(template, failAt);
      if !ok {
        return;
      }
      var n := |OpeningCalls(template)|;
      if includes.Some? {
        ghost var t0 := trace;
        ok := IncludeAssets(includes.value, ext, Shift(failAt, n));
        AppendAssoc(old(trace), t0[|old(trace)|..], Issued(inj, Shift(failAt, n)));
        if !ok {
          return;
        }
        n := n + |InjectCalls(includes.value, ext)|;
      }
      assert trace == old(trace) + (head + inj);
      ghost var t1 := trace;
      ShiftShift(failAt, |head|, |inj|);
      ok := PrintAndClose(pdfOptions, Shift(failAt, n));
      AppendAssoc(old(trace), head + inj, Issued(tail, Shift(failAt, n)));
    }

    /**
     * `getPdf`: start the browser if there is none, then render `template`
     * with the assets and options, returning what the engine printed
     * (`printed`) unless the page call numbered `failAt` rejects.
     * `template` is the text the request resolves to.
     */
    method GetPdf(template: string, includes: Option<seq<Asset>>, pdfOptions: Option<PdfOptions>,
                  launch: LaunchOutcome, printed: Bytes, ext: string -> string, failAt: Option<nat>)
        returns (r: RenderResult)
      modifies this`browser, this`trace
      ensures var g := GetPdfSpec(env, old(browser), template, includes, pdfOptions, launch, printed, ext, failAt);
        r == g.result && browser == g.browser && trace == old(trace) + g.calls
    {
      var error := StartIfNeeded(launch);
      if error.Some? {
        return error.value;
      }
      ghost var c := RenderCalls(template, includes, pdfOptions, ext);
      ghost var start := StartupSpec(env, old(browser), launch).calls;
      var ok := RenderOnPage(template, includes, pdfOptions, ext, failAt);
      AppendAssoc(old(trace), start, Issued(c, failAt));
      r := if ok then Rendered(printed) else PageCallFailed;
    }

    /** The start of `getPdf`: launch when there is no browser, and fail when there is still none. */
    method StartIfNeeded(launch: LaunchOutcome) returns (error: Option<RenderResult>)
      modifies this`browser, this`trace
      ensures var st := StartupSpec(env, old(browser), launch);
        error == st.error && browser == st.browser && trace == old(trace) + st.calls
    {
      error := None;
      if browser.None? {
        var failed := StartBrowser(launch);
        if failed {
          return Some(LaunchError);
        }
      }
      if browser.None? {
        return Some(BrowserNotStarted);
      }
    }
  }

  /** After a disconnect and a successful relaunch, the next render needs no launch and succeeds. */
  method RenderAfterDisconnect(g: Generator, b: nat, template: string, printed: Bytes, ext: string -> string)
      returns (r: RenderResult)
    modifies g
    ensures r == Rendered(printed)
    ensures g.browser == Some(b)
  {
    g.OnDisconnected(Launched(b));
    ghost var t := g.trace;
    r := g.GetPdf(template, None, None, Launched(b + 1), printed, ext, None);
    assert g.trace == t + RenderCalls(template, None, None, ext);
  }
}
