/**
 * The configuration store: it owns one Lua context, loads a script that must
 * define a global `Config` table, and resolves dotted paths such as
 * "Window.Width" against that table.
 */
module System {
  import opened Lua
  import opened DottedPath

  /** Name of the global table every path is resolved from. */
  const RootName: string := "Config"

  /** The global `Config` binding of a context, absent when the script did not set it. */
  function Root(g: Globals): (r: Option<Value>)
    ensures r.Some? <==> RootName in g
    ensures r.Some? ==> r.value == g[RootName]
  {
    GetGlobal(g, RootName)
  }

  /** Member access folded over a list of segments, left to right. */
  function Walk(token: Option<Value>, segments: seq<string>): Option<Value>
    decreases |segments|
  {
    if segments == [] then token else Walk(Index(token, segments[0]), segments[1..])
  }

  /**
   * The value a dotted path names, starting at `token`: absent when the path
   * has an empty segment, otherwise the fold of member access over its segments.
   */
  function WalkPath(token: Option<Value>, path: string): Option<Value>
  {
    var segments := Split(path);
    if "" in segments then None else Walk(token, segments)
  }

  /**
   * What resolving `name` yields in a store whose context is `context`
   * (`None` when the store is not initialized). A value is found only in an
   * initialized store whose globals bind `Config`.
   */
  function ResolvePath(context: Option<Globals>, name: string): (r: Option<Value>)
    ensures r.Some? ==> context.Some? && RootName in context.value
  {
    match context
    case None => None
    case Some(g) =>
      WalkPathAbsent(name);
      WalkPath(Root(g), name)
  }

  /** Once a lookup is absent, every further segment leaves it absent. */
  lemma {:induction false} WalkAbsent(segments: seq<string>)
    ensures Walk(None, segments) == None
    decreases |segments|
  {
    if segments != [] {
      WalkAbsent(segments[1..]);
    }
  }

  /** Walking a concatenation of segment lists walks one list after the other. */
  lemma {:induction false} WalkConcat(token: Option<Value>, a: seq<string>, b: seq<string>)
    ensures Walk(token, a + b) == Walk(Walk(token, a), b)
    decreases |a|
  {
    if a == [] {
      assert a + b == b;
    } else {
      assert (a + b)[0] == a[0];
      assert (a + b)[1..] == a[1..] + b;
      WalkConcat(Index(token, a[0]), a[1..], b);
    }
  }

  /** An absent start makes every path absent. */
  lemma WalkPathAbsent(path: string)
    ensures WalkPath(None, path) == None
  {
    WalkAbsent(Split(path));
  }

  /**
   * One turn of the resolver loop: with `k` the position of the first dot
   * (or the end), an empty first segment gives absent, a last segment gives
   * its member, and otherwise the walk continues after the dot from that member.
   */
  lemma WalkPathStep(token: Option<Value>, path: string)
    ensures var k := FindDot(path, 0);
      && (k == 0 ==> WalkPath(token, path) == None)
      && (0 < k == |path| ==> WalkPath(token, path) == Index(token, path))
      && (0 < k < |path| ==>
            WalkPath(token, path) == WalkPath(Index(token, path[..k]), path[k + 1..]))
  {
    var k := FindDot(path, 0);
    if k == |path| {
      assert Split(path) == [path];
      assert Walk(token, [path]) == Walk(Index(token, path), []);
    } else {
      var rest := path[k + 1..];
      assert Split(path) == [path[..k]] + Split(rest);
      if 0 < k {
        assert "" in Split(path) <==> "" in Split(rest);
        assert Split(path)[1..] == Split(rest);
        if "" !in Split(rest) && Index(token, path[..k]) == None {
          WalkAbsent(Split(rest));
        }
      }
    }
  }

  /**
   * `WalkPathStep` at the scan position `begin` of the whole name, in the
   * terms the resolver loop uses: the dot found from `begin` and the segment
   * between them.
   */
  lemma ResolveTurn(token: Option<Value>, name: string, begin: nat)
    requires begin <= |name|
    ensures var end := FindDot(name, begin);
      && (begin == end ==> WalkPath(token, name[begin..]) == None)
      && (begin < end ==>
            var next := Index(token, name[begin..end]);
            && (next == None ==> WalkPath(token, name[begin..]) == None)
            && (end == |name| ==> WalkPath(token, name[begin..]) == next)
            && (end < |name| ==> WalkPath(token, name[begin..]) == WalkPath(next, name[end + 1..])))
  {
    var end := FindDot(name, begin);
    var rest := name[begin..];
    FindDotShift(name, begin);
    WalkPathStep(token, rest);
    if begin < end {
      assert rest[..end - begin] == name[begin..end];
      if end < |name| {
        assert rest[end - begin + 1..] == name[end + 1..];
        WalkPathAbsent(name[end + 1..]);
      } else {
        assert rest == name[begin..end];
      }
    }
  }

  /** `Resolve` on an uninitialized store yields absent, whatever the path. */
  lemma ResolveUninitialized(name: string)
    ensures ResolvePath(None, name) == None
  {
  }

  /** A path that is empty, starts or ends with a dot, or holds ".." yields absent. */
  lemma ResolveEmptySegment(context: Option<Globals>, name: string)
    requires HasEmptySegment(name)
    ensures ResolvePath(context, name) == None
  {
    EmptySegmentShape(name);
  }

  /**
   * A path without empty segments in an initialized store is member access
   * folded over its segments from the `Config` table.
   */
  lemma ResolveWellFormed(g: Globals, name: string)
    requires !HasEmptySegment(name)
    ensures ResolvePath(Some(g), name) == Walk(Root(g), Split(name))
  {
    EmptySegmentShape(name);
  }

  /** A non-empty name without dots is exactly the member `Config[name]`. */
  lemma ResolveDotFree(g: Globals, name: string)
    requires name != "" && Dot !in name
    ensures ResolvePath(Some(g), name) == Index(Root(g), name)
  {
    SplitDotFree(name);
    assert Walk(Root(g), [name]) == Walk(Index(Root(g), name), []);
  }

  /**
   * Appending one more non-empty, dot-free segment indexes what the shorter
   * path resolved to; in particular an absent prefix stays absent.
   */
  lemma ResolveExtend(context: Option<Globals>, name: string, key: string)
    requires key != "" && Dot !in key
    ensures ResolvePath(context, name + [Dot] + key) == Index(ResolvePath(context, name), key)
  {
    if context.Some? {
      SplitConcat(name, key);
      SplitDotFree(key);
      var segments := Split(name);
      assert "" in segments + [key] <==> "" in segments;
      if "" in segments {
        assert ResolvePath(context, name) == None;
      } else {
        WalkConcat(Root(context.value), segments, [key]);
      }
    }
  }

  /** No suffix revives a path whose resolution is absent: the walk stops at the first absent member. */
  lemma ResolveAbsentPrefix(context: Option<Globals>, name: string, rest: string)
    requires ResolvePath(context, name) == None
    ensures ResolvePath(context, name + [Dot] + rest) == None
  {
    if context.Some? {
      SplitConcat(name, rest);
      var segments := Split(name);
      if "" !in segments && "" !in Split(rest) {
        WalkConcat(Root(context.value), segments, Split(rest));
        WalkAbsent(Split(rest));
      }
    }
  }

  /**
   * A loaded document `Config = { Window = { Width = 800, Height = 600 }, Title = "Demo" }`,
   * for any distinct, non-empty, dot-free names in place of `Window`, `Width`,
   * `Height` and `Title`: nested members resolve, an unset member (`Depth`) is
   * absent, a top-level scalar resolves, and a trailing dot gives absent.
   */
  lemma ResolveWindowDocument(g: Globals, window: string, width: string, height: string,
                              depth: string, title: string)
    requires forall key | key in [window, width, height, depth, title] :: key != "" && Dot !in key
    requires window != title && width != height && depth != width && depth != height
    requires g == map[RootName := Table(map[
      window := Table(map[width := Number(800), height := Number(600)]),
      title := Text("Demo")])]
    ensures ResolvePath(Some(g), window + [Dot] + width) == Some(Number(800))
    ensures ResolvePath(Some(g), window + [Dot] + depth) == None
    ensures ResolvePath(Some(g), title) == Some(Text("Demo"))
    ensures ResolvePath(Some(g), window + [Dot]) == None
  {
    assert window in [window, width, height, depth, title];
    assert width in [window, width, height, depth, title];
    assert depth in [window, width, height, depth, title];
    assert title in [window, width, height, depth, title];
    var sizes := Table(map[width := Number(800), height := Number(600)]);
    assert Root(g) == Some(Table(map[window := sizes, title := Text("Demo")]));
    ResolveDotFree(g, window);
    ResolveDotFree(g, title);
    ResolveExtend(Some(g), window, width);
    ResolveExtend(Some(g), window, depth);
    var trailing := window + [Dot];
    assert trailing[|trailing| - 1] == Dot;
    ResolveEmptySegment(Some(g), trailing);
  }

  /**
   * The store. `context` is the Lua context it owns (`None` for a null
   * context) and `initialized` the flag the source keeps beside it.
   */
  class Config {
    var context: Option<Globals>
    var initialized: bool

    /**
     * The flag is set exactly when a live context is owned: a store that is
     * not initialized holds a null context, and an initialized one a live one.
     */
    ghost predicate Valid()
      reads this
      ensures Valid() && !initialized ==> context == None
      ensures Valid() && initialized ==> context.Some?
    {
      initialized <==> context.Some?
    }

    /** A new store owns a null context and is not initialized. */
    constructor ()
      ensures Valid()
      ensures context == None && !initialized
    {
      context := None;
      initialized := false;
    }

    /** The destructor: an initialized store is cleaned up. */
    method Destroy()
      requires Valid()
      modifies this
      ensures Valid()
      ensures context == None && !initialized
    {
      if initialized {
        Cleanup();
      }
    }

    /** Drops the context and clears the flag, whatever the state was before. */
    method Cleanup()
      modifies this
      ensures Valid()
      ensures context == None && !initialized
    {
      context := None;
      initialized := false;
    }

    /**
     * Replaces any existing context by a fresh one with no globals. When
     * the runtime cannot construct a context, the store ends uninitialized.
     */
    method Initialize(rt: Runtime) returns (ok: bool)
      modifies this
      ensures Valid()
      ensures ok == !rt.contextFaults
      ensures ok ==> context == Some(map[]) && initialized
      ensures !ok ==> context == None && !initialized
    {
      if initialized {
        Cleanup();
      }
      if rt.contextFaults {
        // The scope guard: the flag is still clear, so the context is dropped.
        Cleanup();
        return false;
      }
      context := Some(map[]);
      initialized := true;
      return true;
    }

    /**
     * Initializes, evaluates the file at `workingDir + filename` in the fresh
     * context and requires a global `Config`. Success keeps the globals the
     * script left; every failure leaves the store uninitialized. Nothing of
     * an earlier document survives: the outcome does not depend on the old state.
     */
    method Load(rt: Runtime, workingDir: string, filename: string) returns (ok: bool)
      modifies this
      ensures Valid()
      ensures var outcome := rt.doFile(map[], workingDir + filename);
        && (ok <==> !rt.contextFaults && outcome.Evaluated? && RootName in outcome.globals)
        && (ok ==> context == Some(outcome.globals) && initialized)
      ensures !ok ==> context == None && !initialized
    {
      var initializedOk := Initialize(rt);
      if !initializedOk {
        return false;
      }
      var outcome := rt.doFile(context.value, workingDir + filename);
      match outcome {
        case Fault(_) =>
          // The scope guard: `success` is still false.
          Cleanup();
          return false;
        case Evaluated(globals) =>
          context := Some(globals);
          if Root(globals) == None {
            Cleanup();
            return false;
          }
      }
      return true;
    }

    /**
     * Resolves a dotted path: scans for the next '.', rejects an empty
     * segment, indexes the current value by the segment and stops at the
     * first absent member.
     */
    method Resolve(name: string) returns (r: Option<Value>)
      requires Valid()
      ensures r == ResolvePath(context, name)
      ensures !initialized ==> r == None
      ensures HasEmptySegment(name) ==> r == None
    {
      if !initialized {
        return None;
      }
      if name == [] {
        EmptySegmentShape(name);
        return None;
      }
      if HasEmptySegment(name) {
        ResolveEmptySegment(context, name);
      }
      var token := Root(context.value);
      var begin := 0;
      while true
        invariant 0 <= begin <= |name|
        invariant ResolvePath(context, name) == WalkPath(token, name[begin..])
        decreases |name| - begin
      {
        var end := FindDot(name, begin);
        ResolveTurn(token, name, begin);
        if begin == end {
          return None;
        }
        token := Index(token, name[begin..end]);
        if token == None {
          return None;
        }
        if end == |name| {
          break;
        }
        begin := end + 1;
      }
      return token;
    }
  }
}
