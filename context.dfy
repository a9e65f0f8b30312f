/** The per-window JavaScript context of the Android runtime: its base URL, URL
    resolution, the registry of lifecycle listeners held by weak reference, the menu and
    configuration listeners, and the evaluator it hands scripts to.

    Library code outside this model (java.net.URI, android.net.Uri, the file factory's
    scheme test and the segment joiner) is passed in as a `Platform` of functions.
    Garbage collection is an input: the set of listeners still reachable. */
module Context {
  import opened Wrappers
  import opened Strings

  /** What java.net.URI makes of a string: a syntax error, or its scheme and path. */
  datatype UriParse = SyntaxError | Parsed(scheme: Option<string>, path: string)

  /** Library functions the context calls but whose code is not part of this model. */
  datatype Platform = Platform(
    parseUri: string -> UriParse,                          // new URI(url)
    uriScheme: string -> Option<string>,                   // Uri.parse(path).getScheme()
    isLocalScheme: string -> bool,                         // TiFileFactory.isLocalScheme
    joinSegments: (string, string, Option<string>) -> string) // TiFileHelper2.joinSegments

  /** Identity of a listener object. */
  type ListenerId = nat

  datatype LifecycleEvent = OnStart | OnResume | OnPause | OnStop | OnDestroy

  /** What dispatching an event did with one registered entry: the listener was called
      (and possibly threw, which is logged), or its weak reference had been cleared. */
  datatype Delivery = Delivered(event: LifecycleEvent, listener: ListenerId, threw: bool) | Reclaimed

  /** A menu listener, given by its answers. */
  datatype MenuListener = MenuListener(hasMenu: bool, prepareMenu: nat -> bool, menuItemSelected: nat -> bool)

  /** The evaluator a context hands scripts to. Only a KrollBridge is released with the context. */
  datatype Evaluator = KrollBridge(id: nat) | OtherEvaluator(id: nat)

  /** The result of evalFile: nothing evaluated (null), or the file given to the evaluator,
      with the message id sent to the messenger when one was passed. */
  datatype EvalOutcome = NotEvaluated | Evaluated(evaluator: Evaluator, file: string, notified: Option<int>)

  /** The result of evalJS: the source given to the evaluator. */
  datatype JsOutcome = EvaluatedJs(evaluator: Evaluator, source: string)

  /** resolveUrl before the file factory: a non-local path is returned as it is, a `file:`
      URL is returned, anything else is handed to the file factory for its native path. */
  datatype Resolution = NotLocal(path: string) | FileUrl(url: string) | ToFileFactory(url: string)

  // ---------------------------------------------------------------------------
  // Base URL

  /** The base URL the constructor stores: "app://" for null, otherwise the given URL
      with a `/` appended when it does not end in one. */
  function NormalizeBaseUrl(given: Option<string>): (r: string)
    ensures EndsWith(r, "/")
    ensures given.None? ==> r == "app://"
    ensures given.Some? ==> StartsWith(r, given.value) && |r| <= |given.value| + 1
  {
    match given
    case None => "app://"
    case Some(b) => if EndsWith(b, "/") then b else b + "/"
  }

  /** Normalising a normalised base URL changes nothing. */
  lemma NormalizeBaseUrlIdempotent(given: Option<string>)
    ensures NormalizeBaseUrl(Some(NormalizeBaseUrl(given))) == NormalizeBaseUrl(given)
  {
  }

  /** A base URL that already ends in `/` is kept as given; otherwise exactly one `/` is added. */
  lemma NormalizeBaseUrlAddsOneSlash(b: string)
    ensures EndsWith(b, "/") ==> NormalizeBaseUrl(Some(b)) == b
    ensures !EndsWith(b, "/") ==> NormalizeBaseUrl(Some(b)) == b + "/"
  {
  }

  // ---------------------------------------------------------------------------
  // absoluteUrl

  /** The `/`-separated segments of the base URL, taken after its `://` when it has one. */
  function BaseSegments(baseUrl: string): seq<string> {
    if Contains(baseUrl, "://") then
      var tmp := JavaSplit(baseUrl, "://");
      if |tmp| > 1 then JavaSplit(tmp[1], "/") else []
    else JavaSplit(baseUrl, "/")
  }

  /** The number of leading `..` segments. */
  function LeadingDotDots(right: seq<string>): (k: nat)
    ensures k <= |right|
    ensures forall j :: 0 <= j < k ==> right[j] == ".."
    ensures k < |right| ==> right[k] != ".."
  {
    if |right| > 0 && right[0] == ".." then 1 + LeadingDotDots(right[1..]) else 0
  }

  /** The leading `..` count is the only count with those two properties. */
  lemma {:induction false} LeadingDotDotsUnique(right: seq<string>, k: nat)
    requires k <= |right| && forall j :: 0 <= j < k ==> right[j] == ".."
    requires k < |right| ==> right[k] != ".."
    ensures LeadingDotDots(right) == k
  {
  }

  /** The directory `..`-resolution produces: the base segments but one per leading `..`
      (none when the `..`s outnumber them), then the segments after the `..`s, joined
      with `/` and ending in `/`. */
  function ResolvedDirectory(left: seq<string>, right: seq<string>): (r: string)
    ensures EndsWith(r, "/")
  {
    var k := LeadingDotDots(right);
    var kept := if k <= |left| then |left| - k else 0;
    var joined := Join(left[..kept] + right[k..], "/");
    if EndsWith(joined, "/") then joined else joined + "/"
  }

  /** A leading `..` cancels the last base segment. */
  lemma DotDotCancelsSegment(left: seq<string>, s: string, right: seq<string>)
    ensures ResolvedDirectory(left + [s], [".."] + right) == ResolvedDirectory(left, right)
  {
    var k := LeadingDotDots(right);
    var right' := [".."] + right;
    assert right'[1..] == right;
    assert LeadingDotDots(right') == k + 1;
    assert right'[k + 1..] == right[k..];
    var kept := if k <= |left| then |left| - k else 0;
    assert (left + [s])[..kept] == left[..kept];
  }

  /** Without leading `..`, the base segments are all kept and followed by the path's. */
  lemma ResolvedDirectoryNoDotDots(left: seq<string>, right: seq<string>)
    requires |right| == 0 || right[0] != ".."
    ensures var joined := Join(left + right, "/");
            ResolvedDirectory(left, right) == if EndsWith(joined, "/") then joined else joined + "/"
  {
    assert left[..|left|] == left;
    assert right[0..] == right;
  }

  /** When the `..`s reach above the base URL, nothing of it is kept. */
  lemma ResolvedDirectoryAboveBase(left: seq<string>, right: seq<string>)
    requires |left| <= LeadingDotDots(right)
    ensures var joined := Join(right[LeadingDotDots(right)..], "/");
            ResolvedDirectory(left, right) == if EndsWith(joined, "/") then joined else joined + "/"
  {
    assert left[..0] == [];
    assert [] + right[LeadingDotDots(right)..] == right[LeadingDotDots(right)..];
  }

  /** A path's directory and file name: split at its last `/` unless that is the first character. */
  function SplitFileName(path: string): (r: (string, Option<string>))
    ensures r.1.None? ==> r.0 == path
    ensures r.1.Some? ==> path == r.0 + "/" + r.1.value && |r.0| > 0
    ensures r.1.Some? ==> forall j :: 0 <= j < |r.1.value| ==> r.1.value[j] != '/'
  {
    match LastIndexOfChar(path, '/')
    case None => (path, None)
    case Some(i) =>
      if i > 0 then
        assert path == path[..i] + "/" + path[i + 1..];
        (path[..i], Some(path[i + 1..]))
      else (path, None)
  }

  /** A directory that climbs out of the current one. */
  predicate IsParentPath(dir: string) {
    StartsWith(dir, "../") || dir == ".."
  }

  /** What absoluteUrl returns: the URL itself unless it parses, has no scheme and its
      directory climbs with `..`; in that case the default scheme, the resolved directory and
      the file name are joined by the segment joiner. */
  function AbsoluteUrlOf(platform: Platform, baseUrl: string, defaultScheme: string, url: string): (r: string)
    ensures platform.parseUri(url).SyntaxError? ==> r == url
    ensures platform.parseUri(url).Parsed? && platform.parseUri(url).scheme.Some? ==> r == url
    ensures platform.parseUri(url).Parsed? && !IsParentPath(SplitFileName(platform.parseUri(url).path).0)
            ==> r == url
  {
    match platform.parseUri(url)
    case SyntaxError => url
    case Parsed(scheme, path) =>
      if scheme.Some? then url
      else
        var (dir, fname) := SplitFileName(path);
        if !IsParentPath(dir) then url
        else platform.joinSegments(defaultScheme + "//",
                                   ResolvedDirectory(BaseSegments(baseUrl), JavaSplit(dir, "/")), fname)
  }

  // ---------------------------------------------------------------------------
  // resolveUrl

  /** resolveUrl's handling of a local path `p` (already made absolute when it climbed with
      `..`): a scheme-less path goes under `relativeTo`, or under the scheme `s` when rooted;
      then a `file:` URL is returned and anything else goes to the file factory. */
  function ResolveLocal(platform: Platform, s: string, p: string, relativeTo: string): (r: Resolution)
    ensures !r.NotLocal?
    ensures r.FileUrl? <==> StartsWith(ResolvedText(r), "file:")
    ensures platform.uriScheme(p).Some? ==> ResolvedText(r) == p
    ensures platform.uriScheme(p).None? && !StartsWith(p, "/") ==> ResolvedText(r) == relativeTo + p
    ensures platform.uriScheme(p).None? && StartsWith(p, "/") ==> ResolvedText(r) == s + "/" + p
  {
    var result :=
      if platform.uriScheme(p).None? then
        (if !StartsWith(p, "/") then relativeTo + p else s + "/" + p)
      else p;
    if StartsWith(result, "file:") then FileUrl(result) else ToFileFactory(result)
  }

  /** What resolveUrl does before the file factory. */
  function ResolveUrlOf(platform: Platform, baseUrl: string, scheme: Option<string>, path: string,
                        relativeTo: string): (r: Resolution)
    ensures r.NotLocal? <==> !platform.isLocalScheme(path)
    ensures r.NotLocal? ==> r.path == path
    ensures r.FileUrl? ==> StartsWith(r.url, "file:")
    ensures r.ToFileFactory? ==> !StartsWith(r.url, "file:")
  {
    if !platform.isLocalScheme(path) then NotLocal(path)
    else
      var s := scheme.GetOr("app:");
      var p := if StartsWith(path, "../") then AbsoluteUrlOf(platform, baseUrl, s, path) else path;
      ResolveLocal(platform, s, p, relativeTo)
  }

  /** The URL a resolution carries on. */
  function ResolvedText(r: Resolution): string {
    match r
    case NotLocal(p) => p
    case FileUrl(u) => u
    case ToFileFactory(u) => u
  }

  /** A local, scheme-less relative path is resolved against `relativeTo`. */
  lemma ResolveRelativePath(platform: Platform, baseUrl: string, scheme: Option<string>, path: string,
                            relativeTo: string)
    requires platform.isLocalScheme(path) && !StartsWith(path, "../")
    requires platform.uriScheme(path).None? && !StartsWith(path, "/")
    ensures ResolvedText(ResolveUrlOf(platform, baseUrl, scheme, path, relativeTo)) == relativeTo + path
  {
  }

  /** A local, scheme-less rooted path is put under the scheme, "app:" when none is given. */
  lemma ResolveRootedPath(platform: Platform, baseUrl: string, scheme: Option<string>, path: string,
                          relativeTo: string)
    requires platform.isLocalScheme(path) && platform.uriScheme(path).None? && StartsWith(path, "/")
    ensures ResolvedText(ResolveUrlOf(platform, baseUrl, scheme, path, relativeTo))
            == scheme.GetOr("app:") + "/" + path
  {
    assert path[0] == '/' && "../"[0] == '.';
    assert !StartsWith(path, "../");
  }

  /** A local path with a scheme of its own (and no leading `..`) is kept. */
  lemma ResolveSchemedPath(platform: Platform, baseUrl: string, scheme: Option<string>, path: string,
                           relativeTo: string)
    requires platform.isLocalScheme(path) && platform.uriScheme(path).Some? && !StartsWith(path, "../")
    ensures ResolvedText(ResolveUrlOf(platform, baseUrl, scheme, path, relativeTo)) == path
  {
  }

  // ---------------------------------------------------------------------------
  // The lifecycle listener list

  /** The list without the first entry for `l` (unchanged when there is none). */
  function RemoveFirst(entries: seq<ListenerId>, l: ListenerId): (r: seq<ListenerId>)
    ensures l !in entries ==> r == entries
    ensures l in entries ==> |r| == |entries| - 1
    ensures multiset(r) == multiset(entries) - multiset{l}
  {
    if |entries| == 0 then []
    else if entries[0] == l then
      assert entries == [entries[0]] + entries[1..];
      entries[1..]
    else
      assert entries == [entries[0]] + entries[1..];
      [entries[0]] + RemoveFirst(entries[1..], l)
  }

  /** RemoveFirst deletes exactly the entry at the first occurrence and keeps the others in order. */
  lemma {:induction false} RemoveAtFirst(entries: seq<ListenerId>, l: ListenerId, i: nat)
    requires i < |entries| && entries[i] == l && l !in entries[..i]
    ensures RemoveFirst(entries, l) == entries[..i] + entries[i + 1..]
  {
    if i > 0 {
      assert entries[0] == entries[..i][0];
      assert entries[1..][..i - 1] == entries[1..i];
      RemoveAtFirst(entries[1..], l, i - 1);
      assert entries[..i] == [entries[0]] + entries[1..i];
    }
  }

  /** Registering a new listener and removing it again restores the list. */
  lemma AddThenRemove(entries: seq<ListenerId>, l: ListenerId)
    requires l !in entries
    ensures RemoveFirst(entries + [l], l) == entries
  {
    assert (entries + [l])[..|entries|] == entries;
    RemoveAtFirst(entries + [l], l, |entries|);
  }

  /** The live entries, in registration order. */
  function LiveEntries(entries: seq<ListenerId>, live: set<ListenerId>): (r: seq<ListenerId>)
    ensures |r| <= |entries|
    ensures forall x :: x in r <==> x in entries && x in live
  {
    if |entries| == 0 then []
    else
      var rest := LiveEntries(entries[..|entries| - 1], live);
      var x := entries[|entries| - 1];
      assert entries == entries[..|entries| - 1] + [x];
      if x in live then rest + [x] else rest
  }

  /** The listeners a dispatch called, in call order. */
  function CalledListeners(trace: seq<Delivery>): seq<ListenerId> {
    if |trace| == 0 then []
    else
      var rest := CalledListeners(trace[..|trace| - 1]);
      match trace[|trace| - 1]
      case Delivered(_, l, _) => rest + [l]
      case Reclaimed => rest
  }

  /** One delivery per entry: live entries get the event (and may throw), cleared ones are skipped. */
  predicate DispatchedAs(trace: seq<Delivery>, event: LifecycleEvent, entries: seq<ListenerId>,
                         live: set<ListenerId>, throwing: set<ListenerId>) {
    |trace| == |entries| &&
    forall i :: 0 <= i < |entries| ==>
      trace[i] == if entries[i] in live then Delivered(event, entries[i], entries[i] in throwing) else Reclaimed
  }

  /** A dispatch calls exactly the live listeners, each once per entry, in registration order,
      whether or not earlier ones throw. */
  lemma {:induction false} DispatchCallsLiveInOrder(trace: seq<Delivery>, event: LifecycleEvent,
                                                    entries: seq<ListenerId>, live: set<ListenerId>,
                                                    throwing: set<ListenerId>)
    requires DispatchedAs(trace, event, entries, live, throwing)
    ensures CalledListeners(trace) == LiveEntries(entries, live)
  {
    if |entries| > 0 {
      var n := |entries| - 1;
      assert DispatchedAs(trace[..n], event, entries[..n], live, throwing) by {
        forall i | 0 <= i < n
          ensures trace[..n][i] == if entries[..n][i] in live
                                   then Delivered(event, entries[..n][i], entries[..n][i] in throwing) else Reclaimed
        {
          assert trace[..n][i] == trace[i] && entries[..n][i] == entries[i];
        }
      }
      DispatchCallsLiveInOrder(trace[..n], event, entries[..n], live, throwing);
    }
  }

  /** The activity side of menu dispatch: the context it forwards menu callbacks to. */
  class ActivitySupport {
    var menuDispatchListener: Option<TiContext>

    constructor ()
      ensures menuDispatchListener == None
    {
      menuDispatchListener := None;
    }
  }

  class TiContext {
    var baseUrl: string
    var currentUrl: Option<string>
    var evaluator: Option<Evaluator>
    /** Weak references to lifecycle listeners, in registration order. */
    var lifecycleListeners: seq<ListenerId>
    var menuEventListener: Option<MenuListener>
    /** Weak reference to the configuration listener. */
    var configurationListener: Option<ListenerId>

    /** A new context with the normalised base URL, no listeners and no evaluator. */
    constructor (baseUrl: Option<string>)
      ensures this.baseUrl == NormalizeBaseUrl(baseUrl)
      ensures currentUrl == None && evaluator == None
      ensures lifecycleListeners == [] && menuEventListener == None && configurationListener == None
    {
      this.baseUrl := NormalizeBaseUrl(baseUrl);
      currentUrl := None;
      evaluator := None;
      lifecycleListeners := [];
      menuEventListener := None;
      configurationListener := None;
    }

    method SetJSContext(e: Option<Evaluator>)
      modifies this
      ensures evaluator == e
      ensures baseUrl == old(baseUrl) && currentUrl == old(currentUrl)
      ensures lifecycleListeners == old(lifecycleListeners) && menuEventListener == old(menuEventListener)
      ensures configurationListener == old(configurationListener)
    {
      evaluator := e;
    }

    /** Resolves leading `..` segments of a scheme-less URL against the base URL. */
    method AbsoluteUrl(platform: Platform, defaultScheme: string, url: string) returns (r: string)
      ensures r == AbsoluteUrlOf(platform, baseUrl, defaultScheme, url)
    {
      r := url;
      match platform.parseUri(url) {
        case SyntaxError =>
        case Parsed(scheme, uriPath) =>
          if scheme.None? {
            var (path, fname) := SplitFileName(uriPath);
            if IsParentPath(path) {
              var right := JavaSplit(path, "/");
              var left := BaseSegments(baseUrl);
              var bUrl := ResolveSegments(left, right);
              r := platform.joinSegments(defaultScheme + "//", bUrl, fname);
            }
          }
      }
    }

    /** resolveUrl up to the file factory. */
    method ResolveUrl(platform: Platform, scheme: Option<string>, path: string, relativeTo: string)
      returns (r: Resolution)
      ensures r == ResolveUrlOf(platform, baseUrl, scheme, path, relativeTo)
    {
      if !platform.isLocalScheme(path) {
        return NotLocal(path);
      }
      var s := scheme.GetOr("app:");
      var p := path;
      if StartsWith(p, "../") {
        p := AbsoluteUrl(platform, s, p);
      }
      r := ResolveLocal(platform, s, p, relativeTo);
    }

    /** resolveUrl relative to the context's own base URL. */
    method ResolveUrlFromBase(platform: Platform, scheme: Option<string>, path: string) returns (r: Resolution)
      ensures r == ResolveUrlOf(platform, baseUrl, scheme, path, baseUrl)
    {
      r := ResolveUrl(platform, scheme, path, baseUrl);
    }

    /** Records the file as current; evaluates it when an evaluator is set and then
        notifies the messenger, if any, with the message id. When the evaluator cannot read
        the file (`evalFails`), its IOException propagates and the messenger is not
        notified. */
    method EvalFile(filename: string, hasMessenger: bool, messageId: int, evalFails: bool)
      returns (r: Result<EvalOutcome>)
      modifies this
      ensures currentUrl == Some(filename)
      ensures evaluator.None? ==> r == Success(NotEvaluated)
      ensures evaluator.Some? && evalFails ==> r == Failure(IOException)
      ensures evaluator.Some? && !evalFails ==>
                r == Success(Evaluated(evaluator.value, filename, if hasMessenger then Some(messageId) else None))
      ensures baseUrl == old(baseUrl) && evaluator == old(evaluator)
      ensures lifecycleListeners == old(lifecycleListeners) && menuEventListener == old(menuEventListener)
      ensures configurationListener == old(configurationListener)
    {
      currentUrl := Some(filename);
      match evaluator {
        case None =>
          return Success(NotEvaluated);
        case Some(e) =>
          if evalFails {
            return Failure(IOException);
          }
          r := Success(Evaluated(e, filename, if hasMessenger then Some(messageId) else None));
      }
    }

    /** Evaluates a script source; without an evaluator the call fails on the null reference. */
    method EvalJS(src: string) returns (r: Result<JsOutcome>)
      ensures evaluator.None? <==> r == Failure(NullPointerException)
      ensures evaluator.Some? ==> r == Success(EvaluatedJs(evaluator.value, src))
    {
      match evaluator {
        case None =>
          r := Failure(NullPointerException);
        case Some(e) =>
          r := Success(EvaluatedJs(e, src));
      }
    }

    method AddOnLifecycleEventListener(listener: ListenerId)
      modifies this
      ensures lifecycleListeners == old(lifecycleListeners) + [listener]
      ensures baseUrl == old(baseUrl) && currentUrl == old(currentUrl) && evaluator == old(evaluator)
      ensures menuEventListener == old(menuEventListener) && configurationListener == old(configurationListener)
    {
      lifecycleListeners := lifecycleListeners + [listener];
    }

    /** Removes the first entry whose referent is the listener. The caller holds the
        listener, so the entries that refer to it have not been cleared. */
    method RemoveOnLifecycleEventListener(listener: ListenerId)
      modifies this
      ensures lifecycleListeners == RemoveFirst(old(lifecycleListeners), listener)
      ensures baseUrl == old(baseUrl) && currentUrl == old(currentUrl) && evaluator == old(evaluator)
      ensures menuEventListener == old(menuEventListener) && configurationListener == old(configurationListener)
    {
      var entries := lifecycleListeners;
      var i := 0;
      while i < |entries|
        invariant 0 <= i <= |entries|
        invariant listener !in entries[..i]
      {
        if entries[i] == listener {
          lifecycleListeners := entries[..i] + entries[i + 1..];
          RemoveAtFirst(entries, listener, i);
          return;
        }
        assert entries[..i + 1] == entries[..i] + [entries[i]];
        i := i + 1;
      }
      assert entries[..i] == entries;
    }

    /** Delivers a lifecycle event to every registered entry in order. The listeners do not
        change the registry while the event is delivered. */
    method DispatchLifecycleEvent(event: LifecycleEvent, live: set<ListenerId>, throwing: set<ListenerId>)
      returns (trace: seq<Delivery>)
      ensures DispatchedAs(trace, event, lifecycleListeners, live, throwing)
    {
      trace := [];
      var i := 0;
      while i < |lifecycleListeners|
        invariant 0 <= i <= |lifecycleListeners|
        invariant DispatchedAs(trace, event, lifecycleListeners[..i], live, throwing)
      {
        var l := lifecycleListeners[i];
        if l in live {
          trace := trace + [Delivered(event, l, l in throwing)];
        } else {
          trace := trace + [Reclaimed];
        }
        i := i + 1;
      }
      assert lifecycleListeners[..i] == lifecycleListeners;
    }

    /** Sets or clears the menu listener and points the activity, when still there, at
        this context or at nothing. */
    method SetOnMenuEventListener(listener: Option<MenuListener>, activity: ActivitySupport?)
      modifies this, activity
      ensures menuEventListener == listener
      ensures activity != null ==>
                activity.menuDispatchListener == if listener.Some? then Some(this) else None
      ensures baseUrl == old(baseUrl) && currentUrl == old(currentUrl) && evaluator == old(evaluator)
      ensures lifecycleListeners == old(lifecycleListeners) && configurationListener == old(configurationListener)
    {
      menuEventListener := listener;
      if activity != null {
        activity.menuDispatchListener := if listener.Some? then Some(this) else None;
      }
    }

    function DispatchHasMenu(): (r: bool)
      reads this
      ensures menuEventListener.None? ==> !r
      ensures menuEventListener.Some? ==> r == menuEventListener.value.hasMenu
    {
      match menuEventListener
      case None => false
      case Some(m) => m.hasMenu
    }

    function DispatchPrepareMenu(menu: nat): (r: bool)
      reads this
      ensures menuEventListener.None? ==> !r
      ensures menuEventListener.Some? ==> r == menuEventListener.value.prepareMenu(menu)
    {
      match menuEventListener
      case None => false
      case Some(m) => m.prepareMenu(menu)
    }

    function DispatchMenuItemSelected(item: nat): (r: bool)
      reads this
      ensures menuEventListener.None? ==> !r
      ensures menuEventListener.Some? ==> r == menuEventListener.value.menuItemSelected(item)
    {
      match menuEventListener
      case None => false
      case Some(m) => m.menuItemSelected(item)
    }

    method SetOnConfigurationChangedListener(listener: Option<ListenerId>)
      modifies this
      ensures configurationListener == listener
      ensures baseUrl == old(baseUrl) && currentUrl == old(currentUrl) && evaluator == old(evaluator)
      ensures lifecycleListeners == old(lifecycleListeners) && menuEventListener == old(menuEventListener)
    {
      configurationListener := listener;
    }

    /** The listener notified of a configuration change: none when cleared or reclaimed. */
    method DispatchOnConfigurationChanged(live: set<ListenerId>) returns (notified: Option<ListenerId>)
      ensures notified.Some? <==> configurationListener.Some? && configurationListener.value in live
      ensures notified.Some? ==> notified == configurationListener
    {
      notified := None;
      if configurationListener.Some? {
        var l := configurationListener.value;
        if l in live {
          notified := Some(l);
        }
      }
    }

    /** Releases a KrollBridge evaluator and drops it, and empties the listener registry. */
    method Release()
      modifies this
      ensures lifecycleListeners == [] && menuEventListener == None
      ensures evaluator == if old(evaluator).Some? && old(evaluator).value.KrollBridge? then None else old(evaluator)
      ensures baseUrl == old(baseUrl) && currentUrl == old(currentUrl)
      ensures configurationListener == old(configurationListener)
    {
      if evaluator.Some? && evaluator.value.KrollBridge? {
        evaluator := None;
      }
      lifecycleListeners := [];
      menuEventListener := None;
    }
  }

  /** The StringBuilder loop of absoluteUrl: appends each part after the current separator,
      which becomes `/` once something has been appended. */
  method AppendSegments(sb: string, sep: string, ghost done: seq<string>, parts: seq<string>)
    returns (sb': string, sep': string)
    requires sb == Join(done, "/") && sep == (if |done| == 0 then "" else "/")
    ensures sb' == Join(done + parts, "/") && sep' == (if |done + parts| == 0 then "" else "/")
  {
    sb', sep' := sb, sep;
    var i := 0;
    assert done + parts[..0] == done;
    while i < |parts|
      invariant 0 <= i <= |parts|
      invariant sb' == Join(done + parts[..i], "/")
      invariant sep' == if |done + parts[..i]| == 0 then "" else "/"
    {
      JoinSnoc(done + parts[..i], parts[i], "/");
      assert done + parts[..i + 1] == (done + parts[..i]) + [parts[i]];
      sb' := sb' + sep' + parts[i];
      sep' := "/";
      i := i + 1;
    }
    assert parts[..i] == parts;
  }

  /** The `rIndex`/`lIndex` counting loop and the joining of absoluteUrl. */
  method ResolveSegments(left: seq<string>, right: seq<string>) returns (bUrl: string)
    ensures bUrl == ResolvedDirectory(left, right)
  {
    var rIndex := 0;
    var lIndex: int := |left|;
    while rIndex < |right| && right[rIndex] == ".."
      invariant 0 <= rIndex <= |right|
      invariant forall j :: 0 <= j < rIndex ==> right[j] == ".."
      invariant lIndex == |left| - rIndex
    {
      lIndex := lIndex - 1;
      rIndex := rIndex + 1;
    }
    LeadingDotDotsUnique(right, rIndex);
    var kept := if lIndex < 0 then 0 else lIndex;
    assert [] + left[..kept] == left[..kept];
    var sb, sep := AppendSegments("", "", [], left[..kept]);
    sb, sep := AppendSegments(sb, sep, left[..kept], right[rIndex..]);
    bUrl := sb;
    if !EndsWith(bUrl, "/") {
      bUrl := bUrl + "/";
    }
  }
}
