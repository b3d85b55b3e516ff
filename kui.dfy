/**
 * The public entry points and small helpers of kui/src/kui.c:
 * - the version reply (lines 101-113);
 * - the `kui:/` strip and the resource lookup of the resolve reply (lines 115-166);
 * - the argument defaults and the `kui_init` / `kui_set_page` / `kui_run`
 *   lifecycle over the globals `gState`, `gView` and `gPrelude` (lines 170-213, 270-276).
 *
 * The webview is a log of the host calls made. `webview_create`, the
 * resource table and the encoder's allocation are parameters.
 */
module Kui {
  import opened Wrappers
  import Base64

  type Byte = Base64.Byte

  // ---------------------------------------------------------------------
  // Result and state codes (kui/include/kui/kui.h:9-26)
  // ---------------------------------------------------------------------

  datatype KuiResult =
    | Ok | WebviewFailed | AlreadyInitialized | AlreadyRunning | NotInitialized
    | Disposed | UnhandledScope | InvalidResource | Oom

  datatype KuiState = StateNone | StateInitialized | StateRunning | StateDisposed

  /** The numeric values the enumerations carry in C. */
  function ResultCode(r: KuiResult): (c: nat)
    ensures c <= 8 && (c == 0 <==> r == Ok)
  {
    match r
    case Ok => 0
    case WebviewFailed => 1
    case AlreadyInitialized => 2
    case AlreadyRunning => 3
    case NotInitialized => 4
    case Disposed => 5
    case UnhandledScope => 6
    case InvalidResource => 7
    case Oom => 8
  }

  function StateCode(s: KuiState): (c: nat)
    ensures c <= 3 && (c == 0 <==> s == StateNone)
  {
    match s
    case StateNone => 0
    case StateInitialized => 1
    case StateRunning => 2
    case StateDisposed => 3
  }

  /** Distinct results carry distinct codes. */
  lemma ResultCodesDistinct(r: KuiResult, q: KuiResult)
    ensures ResultCode(r) == ResultCode(q) <==> r == q
  {
  }

  // ---------------------------------------------------------------------
  // Version (lines 13-16, 101-113)
  // ---------------------------------------------------------------------

  const VersionPrefix: string := "dev"
  const VersionMajor: nat := 1
  const VersionMinor: nat := 1
  const VersionPatch: nat := 1

  predicate IsDigit(c: char)
  {
    '0' <= c <= '9'
  }

  predicate AllDigits(s: string)
  {
    forall k :: 0 <= k < |s| ==> IsDigit(s[k])
  }

  function DigitValue(c: char): nat
    requires IsDigit(c)
  {
    c as int - '0' as int
  }

  function DigitChar(d: nat): (c: char)
    requires d < 10
    ensures IsDigit(c) && DigitValue(c) == d
  {
    ('0' as int + d) as char
  }

  /** `%d` of a non-negative number. */
  function Digits(n: nat): (s: string)
    ensures |s| >= 1 && AllDigits(s)
  {
    if n < 10 then [DigitChar(n)] else Digits(n / 10) + [DigitChar(n % 10)]
  }

  /** Reading decimal digits back. */
  function ParseDigits(s: string): nat
    requires AllDigits(s)
  {
    if s == [] then 0 else ParseDigits(s[..|s| - 1]) * 10 + DigitValue(s[|s| - 1])
  }

  lemma {:induction false} ParseDigitsOf(n: nat)
    ensures ParseDigits(Digits(n)) == n
  {
    if n >= 10 {
      var s := Digits(n);
      assert s[..|s| - 1] == Digits(n / 10);
      ParseDigitsOf(n / 10);
    }
  }

  /** `%d.%d.%d` */
  function NumbersText(major: nat, minor: nat, patch: nat): string
  {
    Digits(major) + "." + Digits(minor) + "." + Digits(patch)
  }

  /** `"%s%s%d.%d.%d"` with the dash only when the prefix is not empty (lines 104-110). */
  function VersionText(pre: string, major: nat, minor: nat, patch: nat): string
  {
    pre + (if pre != [] then "-" else "") + NumbersText(major, minor, patch)
  }

  /** `snprintf` into `size` bytes: at most `size - 1` characters before the NUL. */
  function Snprintf(s: string, size: nat): (r: string)
    requires size > 0
    ensures |r| < size && |r| <= |s| && r == s[..|r|]
    ensures |s| < size ==> r == s
  {
    if |s| < size then s else s[..size - 1]
  }

  /** The reply of `__kui_version`, formatted into `char json[64]`. */
  function VersionReply(): string
  {
    Snprintf("{\"version\":\"" + VersionText(VersionPrefix, VersionMajor, VersionMinor, VersionPatch) + "\"}", 64)
  }

  /** Where `c` first occurs: the text before it and the text after it. */
  function SplitAt(s: string, c: char): (string, string)
  {
    if s == [] then ([], [])
    else if s[0] == c then ([], s[1..])
    else var (a, b) := SplitAt(s[1..], c); ([s[0]] + a, b)
  }

  lemma {:induction false} SplitAtJoin(x: string, c: char, y: string)
    requires c !in x
    ensures SplitAt(x + [c] + y, c) == (x, y)
  {
    var s := x + [c] + y;
    if x != [] {
      assert s[0] == x[0] && x[0] != c;
      assert s[1..] == x[1..] + [c] + y;
      assert c !in x[1..] by { assert forall k :: 0 <= k < |x[1..]| ==> x[1..][k] == x[k + 1]; }
      SplitAtJoin(x[1..], c, y);
      assert [x[0]] + x[1..] == x;
    } else {
      assert s == [c] + y;
      assert s[1..] == y;
    }
  }

  /** Reading three dotted numbers back. */
  function ParseNumbers(nums: string): Option<(nat, nat, nat)>
  {
    var (a, rest) := SplitAt(nums, '.');
    var (b, c) := SplitAt(rest, '.');
    if a != [] && b != [] && c != [] && AllDigits(a) && AllDigits(b) && AllDigits(c)
    then Some((ParseDigits(a), ParseDigits(b), ParseDigits(c)))
    else None
  }

  /** Reading a version string back: the prefix up to the first `-`, if any, then the numbers. */
  function ParseVersion(s: string): Option<(string, nat, nat, nat)>
  {
    var (pre, nums) := if '-' in s then SplitAt(s, '-') else ([], s);
    var p := ParseNumbers(nums);
    if p.None? then None else Some((pre, p.value.0, p.value.1, p.value.2))
  }

  lemma DigitsHaveNoMarks(n: nat)
    ensures '-' !in Digits(n) && '.' !in Digits(n)
  {
    var s := Digits(n);
    assert forall k :: 0 <= k < |s| ==> s[k] != '-' && s[k] != '.';
  }

  /** The three numbers come back out of their text, which holds no dash. */
  lemma ParseNumbersText(major: nat, minor: nat, patch: nat)
    ensures ParseNumbers(NumbersText(major, minor, patch)) == Some((major, minor, patch))
    ensures '-' !in NumbersText(major, minor, patch)
  {
    var da, db, dc := Digits(major), Digits(minor), Digits(patch);
    DigitsHaveNoMarks(major);
    DigitsHaveNoMarks(minor);
    DigitsHaveNoMarks(patch);
    var rest := db + ['.'] + dc;
    SplitAtJoin(db, '.', dc);
    SplitAtJoin(da, '.', rest);
    assert NumbersText(major, minor, patch) == da + ['.'] + rest;
    ParseDigitsOf(major);
    ParseDigitsOf(minor);
    ParseDigitsOf(patch);
  }

  /**
   * The version text determines its parts: the prefix (when it holds no
   * dash) and the three numbers come back out of it, with the dash present
   * exactly when the prefix is not empty.
   */
  lemma ParseVersionText(pre: string, major: nat, minor: nat, patch: nat)
    requires '-' !in pre
    ensures ParseVersion(VersionText(pre, major, minor, patch)) == Some((pre, major, minor, patch))
    ensures '-' in VersionText(pre, major, minor, patch) <==> pre != []
  {
    var nums := NumbersText(major, minor, patch);
    ParseNumbersText(major, minor, patch);
    if pre != [] {
      assert VersionText(pre, major, minor, patch) == pre + ['-'] + nums;
      SplitAtJoin(pre, '-', nums);
    } else {
      assert VersionText(pre, major, minor, patch) == nums;
    }
  }

  /** This build reports `dev-1.1.1`; an empty prefix would give `1.1.1`; the reply fits its buffer. */
  lemma VersionOfBuild()
    ensures VersionText(VersionPrefix, VersionMajor, VersionMinor, VersionPatch) == "dev-1.1.1"
    ensures VersionText("", VersionMajor, VersionMinor, VersionPatch) == "1.1.1"
    ensures VersionReply() == "{\"version\":\"dev-1.1.1\"}"
  {
    assert Digits(1) == "1";
  }

  // ---------------------------------------------------------------------
  // Resolve (lines 115-166)
  // ---------------------------------------------------------------------

  const Scheme: string := "kui:/"

  /** `tolower` on ASCII. */
  function Lower(c: char): char
  {
    if 'A' <= c <= 'Z' then (c as int + 32) as char else c
  }

  /** `!strncasecmp(url, "kui:/", 5)`: five characters, each equal to `kui:/` once lowered. */
  predicate HasScheme(url: string)
  {
    |url| >= 5 && Lower(url[0]) == 'k' && Lower(url[1]) == 'u' && Lower(url[2]) == 'i' &&
    Lower(url[3]) == ':' && Lower(url[4]) == '/'
  }

  /** Line 139: drop a leading `kui:/` in any letter case. */
  function StripScheme(url: string): string
  {
    if HasScheme(url) then url[5..] else url
  }

  /**
   * The path is the URL minus its `kui:/` prefix when the URL starts with
   * one, in any letter case, and the URL unchanged otherwise.
   */
  lemma StripSchemeSpec(prefix: string, path: string, url: string)
    requires |prefix| == 5
    ensures HasScheme(prefix) ==> StripScheme(prefix + path) == path
    ensures !HasScheme(url) ==> StripScheme(url) == url
    ensures HasScheme(url) ==> url == url[..5] + StripScheme(url) && |StripScheme(url)| == |url| - 5
  {
    assert (prefix + path)[..5] == prefix;
    assert (prefix + path)[5..] == path;
  }

  /** Only one prefix is removed, and upper-case schemes match as well. */
  lemma StripSchemeExamples()
    ensures StripScheme("kui:/html/a.html") == "html/a.html"
    ensures StripScheme("KUI:/js/x.js") == "js/x.js"
    ensures StripScheme("kui:/kui:/a") == "kui:/a"
    ensures StripScheme("kui:a") == "kui:a"
    ensures StripScheme("html/a.html") == "html/a.html"
  {
    assert HasScheme("kui:/html/a.html");
    assert HasScheme("KUI:/js/x.js");
    assert HasScheme("kui:/kui:/a");
    assert !HasScheme("kui:a");
    assert !HasScheme("html/a.html");
  }

  /** An embedded resource. */
  datatype Resource = Resource(data: seq<Byte>)

  /** `kui_resource_find`: the table is a map from path to resource. */
  function Find(table: map<string, Resource>, path: string): Option<Resource>
  {
    if path in table then Some(table[path]) else None
  }

  /** The argument of a `__kui_resolve` call, as far as the JSON parser delivers it. */
  datatype ResolveRequest = BadJson | NotObject | Args(url: Option<string>)

  datatype ResolveReply = Found(mime: string, b64: string) | Failed(error: string)

  /**
   * `__kui_resolve_cb`: with `mime` for `kui_resource_mime` and `encodeOk`
   * whether the encoder's buffer was allocated.
   */
  function Resolve(req: ResolveRequest, table: map<string, Resource>, mime: string -> string, encodeOk: bool): ResolveReply
  {
    match req
    case BadJson => Failed("bad json")
    case NotObject => Failed("bad args")
    case Args(url) =>
      if url.None? then Failed("missing url")
      else
        var path := StripScheme(url.value);
        if path !in table then Failed("not found")
        else if !encodeOk then Failed("oom")
        else Found(mime(path), Base64.AsWritten(table[path].data))
  }

  /**
   * `kui:/<path>` resolves exactly like `<path>`, and a missing resource
   * reports `not found`. A found one comes back as `kui_b64_encode`'s output
   * as written, which the standard decoder turns back into the resource's
   * bytes exactly when their count is a multiple of three.
   */
  lemma ResolveSpec(path: string, table: map<string, Resource>, mime: string -> string)
    requires !HasScheme(path)
    ensures var r := Resolve(Args(Some(Scheme + path)), table, mime, true);
      r == Resolve(Args(Some(path)), table, mime, true) &&
      (path !in table <==> r == Failed("not found")) &&
      (path in table ==>
         var data := table[path].data;
         r.Found? && r.mime == mime(path) && r.b64 == Base64.AsWritten(data) &&
         (Base64.Decode(r.b64) == Some(data) <==> |data| % 3 == 0))
  {
    StripSchemeSpec(Scheme, path, path);
    if path in table {
      Base64.AsWrittenDecodes(table[path].data);
    }
  }

  /** `resolve(url="kui:/html/missing.html")` reports `not found`. */
  lemma ResolveMissing(table: map<string, Resource>, mime: string -> string)
    requires "html/missing.html" !in table
    ensures Resolve(Args(Some("kui:/html/missing.html")), table, mime, true) == Failed("not found")
  {
    assert HasScheme("kui:/html/missing.html");
    assert "kui:/html/missing.html"[5..] == "html/missing.html";
  }

  // ---------------------------------------------------------------------
  // Arguments (lines 9-11, 173-175)
  // ---------------------------------------------------------------------

  datatype KuiArgs = KuiArgs(title: Option<string>, width: int, height: int)

  datatype Window = Window(title: string, width: int, height: int)

  const DefaultTitle: string := "KUI Window"
  const DefaultWidth: int := 900
  const DefaultHeight: int := 600

  function Effective(args: KuiArgs): Window
  {
    Window(if args.title.Some? then args.title.value else DefaultTitle,
           if args.width > 0 then args.width else DefaultWidth,
           if args.height > 0 then args.height else DefaultHeight)
  }

  /**
   * A given title and positive sizes are kept and everything else takes
   * its default, so the window is always sized; defaulting a window's own
   * settings changes nothing.
   */
  lemma EffectiveSpec(args: KuiArgs)
    ensures var w := Effective(args);
      w.width > 0 && w.height > 0 &&
      (args.title.Some? ==> w.title == args.title.value) &&
      (args.title.None? ==> w.title == DefaultTitle) &&
      (args.width > 0 <==> w.width == args.width) &&
      (args.width <= 0 ==> w.width == DefaultWidth) &&
      (args.height > 0 <==> w.height == args.height) &&
      (args.height <= 0 ==> w.height == DefaultHeight) &&
      Effective(KuiArgs(Some(w.title), w.width, w.height)) == w
  {
  }

  // ---------------------------------------------------------------------
  // Lifecycle (lines 170-213, 270-276)
  // ---------------------------------------------------------------------

  /** The webview calls the library makes, in order. */
  datatype HostCall =
    | Create | SetTitle(title: string) | SetSize(width: int, height: int) | Bind(name: string)
    | SetHtml(html: string) | Eval(js: string) | RunLoop | Destroy

  /** A call that returned, or one that dereferenced NULL. */
  datatype Call = Done(result: KuiResult) | Crash

  /** `gState`, `gView` (a window identity, `None` for NULL), `gPrelude`, and the host calls so far. */
  datatype Host = Host(state: KuiState, view: Option<nat>, prelude: Option<Resource>, log: seq<HostCall>)

  const Start: Host := Host(StateNone, None, None, [])

  /** Bytes handed to the webview as a C string. */
  function Text(data: seq<Byte>): (t: string)
    ensures |t| == |data|
  {
    seq(|data|, k requires 0 <= k < |data| => data[k] as char)
  }

  /** `set_html` and `js_eval`: nothing without a view or with no bytes (lines 31, 41). */
  function Shown(view: Option<nat>, data: seq<Byte>, call: HostCall): seq<HostCall>
  {
    if view.None? || data == [] then [] else [call]
  }

  /** `kui_set_page`: the raw page, then the prelude evaluated; `gPrelude` is read without a check. */
  function SetPageSpec(h: Host, page: Option<Resource>): (Host, Call)
  {
    if page.None? then (h, Done(InvalidResource))
    else
      var shown := h.(log := h.log + Shown(h.view, page.value.data, SetHtml(Text(page.value.data))));
      if h.prelude.None? then (shown, Crash)
      else
        (shown.(log := shown.log + Shown(h.view, h.prelude.value.data, Eval(Text(h.prelude.value.data)))), Done(Ok))
  }

  const Binds: seq<HostCall> := [Bind("__kui_version"), Bind("__kui_resolve")]

  /** `kui_init`, with `created` what `webview_create` returned. */
  function InitSpec(h: Host, args: KuiArgs, created: Option<nat>, table: map<string, Resource>): (Host, Call)
  {
    if h.state != StateNone then (h, Done(AlreadyInitialized))
    else if created.None? then (h.(view := created, log := h.log + [Create]), Done(WebviewFailed))
    else
      var win := Effective(args);
      var ready := h.(view := created, prelude := Find(table, "js/prelude.js"),
                    log := h.log + [Create, SetTitle(win.title), SetSize(win.width, win.height)] + Binds);
      var (paged, c) := SetPageSpec(ready, Find(table, "html/getting_started.html"));
      if c.Crash? then (paged, Crash) else (paged.(state := StateInitialized), Done(Ok))
  }

  /** `kui_run`: the event loop runs to the end, then the view is destroyed. */
  function RunSpec(h: Host): (Host, KuiResult)
  {
    if h.state == StateNone then (h, NotInitialized)
    else if h.state == StateRunning then (h, AlreadyRunning)
    else if h.state == StateDisposed then (h, Disposed)
    else if h.view.None? then (h, NotInitialized)
    else (h.(state := StateDisposed, view := None, log := h.log + [RunLoop, Destroy]), Ok)
  }

  /** A view exists exactly while the library is initialised or running. */
  predicate HostOk(h: Host)
  {
    h.view.Some? <==> h.state == StateInitialized || h.state == StateRunning
  }

  /**
   * `kui_init` succeeds only from NONE. A failed view creation leaves the
   * state NONE with no view. A completed init has a view, and has bound both
   * handlers before any page content was set.
   */
  lemma InitSpecProps(h: Host, args: KuiArgs, created: Option<nat>, table: map<string, Resource>)
    requires HostOk(h)
    ensures var (h', c) := InitSpec(h, args, created, table);
      (h.state != StateNone ==> h' == h && c == Done(AlreadyInitialized)) &&
      (h.state == StateNone && created.None? ==> c == Done(WebviewFailed) && h'.state == StateNone && HostOk(h')) &&
      (c == Crash <==>
         h.state == StateNone && created.Some? && "html/getting_started.html" in table && "js/prelude.js" !in table) &&
      (c == Done(Ok) <==> h.state == StateNone && created.Some? && c != Crash) &&
      (c == Done(Ok) ==>
         var win := Effective(args);
         h'.state == StateInitialized && HostOk(h') &&
         h'.log[..|h.log| + 5] == h.log + [Create, SetTitle(win.title), SetSize(win.width, win.height)] + Binds &&
         forall k :: |h.log| + 5 <= k < |h'.log| ==> h'.log[k].SetHtml? || h'.log[k].Eval?)
  {
    if h.state == StateNone && created.Some? {
      var win := Effective(args);
      var front := h.log + [Create, SetTitle(win.title), SetSize(win.width, win.height)] + Binds;
      assert |front| == |h.log| + 5;
    }
  }

  /**
   * The page shown is the raw resource, not an assembled one, and the
   * prelude is evaluated after it; without the prelude resource the call
   * dereferences NULL.
   */
  lemma SetPageShowsRaw(h: Host, page: Resource)
    requires h.view.Some? && page.data != []
    ensures var (h', c) := SetPageSpec(h, Some(page));
      (h.prelude.None? <==> c == Crash) &&
      (h.prelude.Some? && h.prelude.value.data != [] ==>
         c == Done(Ok) && h'.log == h.log + [SetHtml(Text(page.data)), Eval(Text(h.prelude.value.data))])
  {
  }

  /**
   * `kui_run` reports NOT_INITIALIZED, ALREADY_RUNNING or DISPOSED for the
   * matching states without changing anything; from INITIALIZED it runs and
   * ends DISPOSED with the view cleared, and its own `!gView` check never
   * fires.
   */
  lemma RunSpecProps(h: Host)
    requires HostOk(h)
    ensures var (h', r) := RunSpec(h);
      HostOk(h') &&
      (h.state == StateNone ==> r == NotInitialized && h' == h) &&
      (h.state == StateRunning ==> r == AlreadyRunning && h' == h) &&
      (h.state == StateDisposed ==> r == Disposed && h' == h) &&
      (h.state == StateInitialized ==>
         r == Ok && h'.state == StateDisposed && h'.view.None? && h'.log == h.log + [RunLoop, Destroy])
  {
  }

  /**
   * A whole life: init then run ends DISPOSED; after that neither a second
   * init nor a second run changes anything.
   */
  lemma NoRestart(args: KuiArgs, view: nat, table: map<string, Resource>)
    requires "js/prelude.js" in table
    ensures var (h1, c1) := InitSpec(Start, args, Some(view), table);
      var (h2, r2) := RunSpec(h1);
      c1 == Done(Ok) && r2 == Ok && h2.state == StateDisposed &&
      InitSpec(h2, args, Some(view), table) == (h2, Done(AlreadyInitialized)) &&
      RunSpec(h2) == (h2, Disposed)
  {
    InitSpecProps(Start, args, Some(view), table);
  }

  // ---------------------------------------------------------------------
  // The globals in place
  // ---------------------------------------------------------------------

  /** `gState`, `gView` and `gPrelude`, with the host calls made so far. */
  class Runtime {
    var state: KuiState
    var view: Option<nat>
    var prelude: Option<Resource>
    var log: seq<HostCall>

    function Snapshot(): Host
      reads this
    {
      Host(state, view, prelude, log)
    }

    constructor ()
      ensures Snapshot() == Start
    {
      state := StateNone;
      view := None;
      prelude := None;
      log := [];
    }

    /** `set_html` and `js_eval`. */
    method Show(data: seq<Byte>, call: HostCall)
      modifies this
      ensures Snapshot() == old(Snapshot()).(log := old(log) + Shown(view, data, call))
    {
      if view.None? || |data| == 0 {
        return;
      }
      log := log + [call];
    }

    method SetPage(page: Option<Resource>) returns (c: Call)
      modifies this
      ensures (Snapshot(), c) == SetPageSpec(old(Snapshot()), page)
    {
      if page.None? {
        return Done(InvalidResource);
      }
      Show(page.value.data, SetHtml(Text(page.value.data)));
      if prelude.None? {
        return Crash;
      }
      Show(prelude.value.data, Eval(Text(prelude.value.data)));
      c := Done(Ok);
    }

    method Init(args: KuiArgs, created: Option<nat>, table: map<string, Resource>) returns (c: Call)
      modifies this
      ensures (Snapshot(), c) == InitSpec(old(Snapshot()), args, created, table)
    {
      if state != StateNone {
        return Done(AlreadyInitialized);
      }
      var win := Effective(args);
      var before := log;
      view := created;
      log := before + [Create];
      if view.None? {
        return Done(WebviewFailed);
      }
      log := before + [Create, SetTitle(win.title), SetSize(win.width, win.height)] + Binds;
      prelude := Find(table, "js/prelude.js");
      c := SetPage(Find(table, "html/getting_started.html"));
      if c.Crash? {
        return;
      }
      state := StateInitialized;
      c := Done(Ok);
    }

    method Run() returns (r: KuiResult)
      modifies this
      ensures (Snapshot(), r) == RunSpec(old(Snapshot()))
    {
      if state == StateNone {
        return NotInitialized;
      }
      if state == StateRunning {
        return AlreadyRunning;
      }
      if state == StateDisposed {
        return Disposed;
      }
      if view.None? {
        return NotInitialized;
      }
      state := StateRunning;
      // `webview_run` returns once the window is closed; then `webview_destroy`.
      log := log + [RunLoop, Destroy];
      view := None;
      state := StateDisposed;
      r := Ok;
    }
  }
}
