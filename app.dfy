/**
 * The application object's lifecycle state machine, its append-only handler
 * registries and its route list. Handlers are opaque identities; running one
 * is recorded in a ghost trace together with the state it ran in.
 */
module Application {
  import opened Outcomes

  datatype State = Stopped | Starting | Started | Stopping

  /** Identity of a registered callable. */
  type Handler = nat

  /** The handler (log.exception) every new application starts with. */
  const LogException: Handler := 0

  /** A route of the web framework; `path` is None for a route without that attribute. */
  datatype Route = Route(path: Option<string>, endpoint: nat)

  /** The routes whose path differs from `path`, in their original order. */
  function WithoutPath(routes: seq<Route>, path: string): seq<Route>
  {
    if |routes| == 0 then []
    else (if routes[0].path == Some(path) then [] else [routes[0]]) + WithoutPath(routes[1..], path)
  }

  /** Exactly the routes with a different path survive. */
  lemma {:induction false} WithoutPathMembers(routes: seq<Route>, path: string)
    ensures forall r :: r in WithoutPath(routes, path) <==> r in routes && r.path != Some(path)
    ensures |WithoutPath(routes, path)| <= |routes|
    decreases |routes|
  {
    if |routes| > 0 {
      WithoutPathMembers(routes[1..], path);
      assert routes == [routes[0]] + routes[1..];
    }
  }

  /** Filtering keeps relative order: it distributes over concatenation. */
  lemma {:induction false} WithoutPathConcat(a: seq<Route>, b: seq<Route>, path: string)
    ensures WithoutPath(a + b, path) == WithoutPath(a, path) + WithoutPath(b, path)
    decreases |a|
  {
    if |a| > 0 {
      assert (a + b)[1..] == a[1..] + b;
      WithoutPathConcat(a[1..], b, path);
    } else {
      assert a + b == b;
    }
  }

  /** Removing the same path twice removes nothing more. */
  lemma {:induction false} WithoutPathIdempotent(routes: seq<Route>, path: string)
    ensures WithoutPath(WithoutPath(routes, path), path) == WithoutPath(routes, path)
    decreases |routes|
  {
    if |routes| > 0 {
      var head := if routes[0].path == Some(path) then [] else [routes[0]];
      WithoutPathConcat(head, WithoutPath(routes[1..], path), path);
      WithoutPathIdempotent(routes[1..], path);
      if head != [] { assert head[1..] == []; }
    }
  }

  /** Routes with no route at `path` are left as they are. */
  lemma {:induction false} WithoutAbsentPath(routes: seq<Route>, path: string)
    requires forall r :: r in routes ==> r.path != Some(path)
    ensures WithoutPath(routes, path) == routes
    decreases |routes|
  {
    if |routes| > 0 {
      assert routes[0] in routes;
      assert forall r :: r in routes[1..] ==> r in routes;
      WithoutAbsentPath(routes[1..], path);
      assert routes == [routes[0]] + routes[1..];
    }
  }

  /** The trace left by running `hs` in order while the application is in state `s`. */
  function Invocations(hs: seq<Handler>, s: State): seq<(Handler, State)> {
    seq(|hs|, i requires 0 <= i < |hs| => (hs[i], s))
  }

  class App {
    var state: State
    var startupHandlers: seq<Handler>
    var shutdownHandlers: seq<Handler>
    var connectHandlers: seq<Handler>
    var disconnectHandlers: seq<Handler>
    var exceptionHandlers: seq<Handler>
    var routes: seq<Route>
    /** Static-file directories handed to the framework to mount: (url_path, local_directory). */
    var mounts: seq<(string, string)>
    /** Every handler run so far, with the state it ran in. */
    ghost var invoked: seq<(Handler, State)>

    /** A new application, on top of the routes the web framework set up. */
    constructor (frameworkRoutes: seq<Route>)
      ensures state == Stopped
      ensures startupHandlers == [] && shutdownHandlers == []
      ensures connectHandlers == [] && disconnectHandlers == []
      ensures exceptionHandlers == [LogException]
      ensures routes == frameworkRoutes && mounts == [] && invoked == []
    {
      state := Stopped;
      startupHandlers, shutdownHandlers := [], [];
      connectHandlers, disconnectHandlers := [], [];
      exceptionHandlers := [LogException];
      routes, mounts := frameworkRoutes, [];
      invoked := [];
    }

    function IsStarting(): bool reads this { state == Starting }
    function IsStarted(): bool reads this { state == Started }
    function IsStopping(): bool reads this { state == Stopping }
    function IsStopped(): bool reads this { state == Stopped }

    /** At any time exactly one of the four status properties holds. */
    lemma ExactlyOneStatus()
      ensures (if IsStarting() then 1 else 0) + (if IsStarted() then 1 else 0)
            + (if IsStopping() then 1 else 0) + (if IsStopped() then 1 else 0) == 1
    {
    }

    /** `start()`: runs every startup handler, in registration order, while STARTING; ends STARTED. */
    method Start()
      modifies this
      ensures state == Started
      ensures invoked == old(invoked) + Invocations(startupHandlers, Starting)
      ensures startupHandlers == old(startupHandlers) && shutdownHandlers == old(shutdownHandlers)
      ensures connectHandlers == old(connectHandlers) && disconnectHandlers == old(disconnectHandlers)
      ensures exceptionHandlers == old(exceptionHandlers)
      ensures routes == old(routes) && mounts == old(mounts)
    {
      state := Starting;
      RunAll(startupHandlers);
      state := Started;
    }

    /** `stop()`: runs every shutdown handler, in registration order, while STOPPING; ends STOPPED. */
    method Stop()
      modifies this
      ensures state == Stopped
      ensures invoked == old(invoked) + Invocations(shutdownHandlers, Stopping)
      ensures startupHandlers == old(startupHandlers) && shutdownHandlers == old(shutdownHandlers)
      ensures connectHandlers == old(connectHandlers) && disconnectHandlers == old(disconnectHandlers)
      ensures exceptionHandlers == old(exceptionHandlers)
      ensures routes == old(routes) && mounts == old(mounts)
    {
      state := Stopping;
      RunAll(shutdownHandlers);
      state := Stopped;
    }

    /** Runs each handler of `hs` in order, recording it with the current state. */
    method RunAll(hs: seq<Handler>)
      modifies this`invoked
      ensures invoked == old(invoked) + Invocations(hs, state)
    {
      var i := 0;
      while i < |hs|
        invariant 0 <= i <= |hs|
        invariant invoked == old(invoked) + Invocations(hs[..i], state)
      {
        invoked := invoked + [(hs[i], state)];
        i := i + 1;
        assert Invocations(hs[..i], state) == Invocations(hs[..i - 1], state) + [(hs[i - 1], state)];
      }
      assert hs[..i] == hs;
    }

    /** `on_connect(handler)`. */
    method OnConnect(h: Handler)
      modifies this`connectHandlers
      ensures connectHandlers == old(connectHandlers) + [h]
    {
      connectHandlers := connectHandlers + [h];
    }

    /** `on_disconnect(handler)`. */
    method OnDisconnect(h: Handler)
      modifies this`disconnectHandlers
      ensures disconnectHandlers == old(disconnectHandlers) + [h]
    {
      disconnectHandlers := disconnectHandlers + [h];
    }

    /** `on_startup(handler)`: RuntimeError once STARTED; accepted in every other state, STARTING included. */
    method OnStartup(h: Handler) returns (r: Outcome)
      modifies this`startupHandlers
      ensures old(state) == Started ==> r == Fail(RuntimeError) && startupHandlers == old(startupHandlers)
      ensures old(state) != Started ==> r == Pass && startupHandlers == old(startupHandlers) + [h]
    {
      if IsStarted() {
        return Fail(RuntimeError);
      }
      startupHandlers := startupHandlers + [h];
      r := Pass;
    }

    /** `on_shutdown(handler)`. */
    method OnShutdown(h: Handler)
      modifies this`shutdownHandlers
      ensures shutdownHandlers == old(shutdownHandlers) + [h]
    {
      shutdownHandlers := shutdownHandlers + [h];
    }

    /** `on_exception(handler)`. */
    method OnException(h: Handler)
      modifies this`exceptionHandlers
      ensures exceptionHandlers == old(exceptionHandlers) + [h]
    {
      exceptionHandlers := exceptionHandlers + [h];
    }

    /** `remove_route(path)`: keeps exactly the routes at other paths, in order. */
    method RemoveRoute(path: string)
      modifies this`routes
      ensures routes == WithoutPath(old(routes), path)
      ensures forall r :: r in routes <==> r in old(routes) && r.path != Some(path)
    {
      WithoutPathMembers(routes, path);
      routes := WithoutPath(routes, path);
    }

    /** `add_static_files(url_path, local_directory)`: ValueError for "/", before anything is mounted. */
    method AddStaticFiles(urlPath: string, localDirectory: string) returns (r: Outcome)
      modifies this`mounts
      ensures urlPath == "/" ==> r == Fail(ValueError) && mounts == old(mounts)
      ensures urlPath != "/" ==> r == Pass && mounts == old(mounts) + [(urlPath, localDirectory)]
    {
      if urlPath == "/" {
        return Fail(ValueError);
      }
      mounts := mounts + [(urlPath, localDirectory)];
      r := Pass;
    }
  }
}
