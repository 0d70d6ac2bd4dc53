# Configuration store model

A Dafny model of the configuration store in `Source/System/Config.cpp`. The store owns one embedded
Lua context and an `initialized` flag. It loads a script file that must define a global `Config`
table. It then resolves dotted paths such as `"Window.Width"` against that table.

The model has three files:

- `lua.dfy` (module `Lua`) reduces the Lua runtime to values. A value is a boolean, a number, a
  string, a table of named members, or an opaque value of another Lua type such as a function
  (`Value`). A live context is its map of globals (`Globals`).
  The absent marker (a nil `LuaRef`) is `None`. `Index` is member access `token[key]`. The two
  operations that can raise a `LuaException` are an oracle (`Runtime`): whether constructing a
  context faults, and what `doFile` yields (`Fault` or the new globals) for the globals it runs in
  and the full file path.
- `path.dfy` (module `DottedPath`) holds the scan for the next `'.'` (`FindDot`, the `std::find`
  of the resolver), splitting a path into segments with empty ones kept (`Split`), and `Join`. It
  proves the two round trips between `Split` and `Join`, how `Split` distributes over a dot, and
  the string shapes that give an empty segment (empty path, leading dot, trailing dot, `..`).
- `config.dfy` (module `System`) holds the class `Config` with the two fields of the source
  (`context: Option<Globals>`, `None` for a null context, and `initialized`). Its methods are
  `Cleanup`, `Initialize`, `Load`, the destructor (`Destroy`) and `Resolve`. `Resolve` keeps the
  source's `while (true)` scan loop and is proved equal to the specification function
  `ResolvePath`. That function splits the path on `'.'`, fails on an empty segment, and folds
  member access (`Walk`) over the segments from the global `Config`. The lemmas beside it state
  what the resolver promises.

`initialized` does not mean that a `Config` table is loaded. `Initialize` alone sets the flag on a
fresh context with no globals (Config.cpp:48, 58), so `Resolve` on such a store yields absent for
every path (`ResolvePath` finds a value only when the globals bind `Config`). The invariant kept
between the two fields (`Config.Valid`) is that the flag is set exactly when a context is owned.

## Model

| member | source | states |
|---|---|---|
| Lua.Index | Source/System/Config.cpp:130 | member access is present exactly when the value is a table that binds the key, and then it is that member; an absent value or any non-table value gives absent |
| Lua.GetGlobal | Source/System/Config.cpp:86 | a global lookup is present exactly when the globals bind the name, and then it is the bound value |
| System.Root | Source/System/Config.cpp:116 | the starting token is present exactly when the globals bind `Config`, and then it is that binding |
| System.ResolvePath | Source/System/Config.cpp:107-144 | the resolver's functional model: absent when uninitialized, absent on an empty segment, otherwise member access folded over the segments from `Config`; a value is found only in an initialized store whose globals bind `Config` |
| System.Config.Valid | Source/System/Config.cpp:12-58 | the invariant between the fields: a store that is not initialized holds a null context and an initialized one holds a live context; the constructor establishes it and every method keeps it |
| System.Config.constructor | Source/System/Config.cpp:12-16 | a new store owns a null context and is not initialized |
| System.Config.Destroy | Source/System/Config.cpp:18-22 | after destruction the context is null and the store is not initialized, from any valid state |
| System.Config.Cleanup | Source/System/Config.cpp:24-31 | the context is null and the flag is clear whatever the previous state, so a second call changes nothing |
| System.Config.Initialize | Source/System/Config.cpp:33-59 | succeeds exactly when the runtime can build a context; success leaves a fresh context with no globals and the flag set, and failure leaves a null context and the flag clear; an earlier context never survives |
| System.Config.Load | Source/System/Config.cpp:61-105 | returns true exactly when initialization succeeds, the file at working directory plus file name evaluates without fault in a fresh context, and a global `Config` is present; on success the context holds exactly the globals the script left; on every false return the store is uninitialized; the outcome does not depend on any earlier document |
| System.Config.Resolve | Source/System/Config.cpp:107-144 | the scan loop yields exactly `ResolvePath` of the current context and name; it is absent on an uninitialized store and on any path with an empty segment |
| DottedPath.FindDot | Source/System/Config.cpp:124 | the result is the first position at or after the scan start that holds a `'.'`, or the end of the string when there is none |
| DottedPath.Split | Source/System/Config.cpp:119-140 | a path has at least one segment and no segment contains a `'.'` |
| DottedPath.JoinSplit | Source/System/Config.cpp:119-140 | joining the segments the scan visits with `'.'` gives the whole path back, so no character is skipped or duplicated |
| DottedPath.SplitJoin | Source/System/Config.cpp:119-140 | splitting the dot-join of one or more dot-free segments gives exactly those segments back |
| DottedPath.SplitConcat | Source/System/Config.cpp:136-139 | the segments of `p + "." + q` are the segments of `p` followed by those of `q` |
| DottedPath.FindDotShift | Source/System/Config.cpp:124 | scanning from an offset finds the same dot as scanning the suffix that starts there |
| DottedPath.EmptySegmentShape | Source/System/Config.cpp:124-127 | a path has an empty segment if and only if it is empty, starts with a dot, ends with a dot, or holds two dots in a row |
| System.WalkAbsent | Source/System/Config.cpp:130-133 | once member access yields absent, every further segment keeps it absent |
| System.WalkConcat | Source/System/Config.cpp:121-140 | walking a list of segments followed by another walks the first and then continues from its result |
| System.WalkPathStep | Source/System/Config.cpp:124-139 | one loop turn: an empty first segment gives absent, a last segment gives the member it names, otherwise the walk continues after the dot from that member |
| System.ResolveTurn | Source/System/Config.cpp:124-139 | the loop step restated at a scan position of the whole name: an empty segment gives absent, an absent member gives absent, the last segment gives its member, otherwise the rest after the dot is walked from that member |
| System.WalkPathAbsent | Source/System/Config.cpp:130-133 | from an absent value every path resolves to absent |
| System.ResolveUninitialized | Source/System/Config.cpp:109-110 | an uninitialized store resolves every name to absent |
| System.ResolveEmptySegment | Source/System/Config.cpp:112-127 | the empty name, a leading dot, a trailing dot or `..` resolve to absent in every store |
| System.ResolveWellFormed | Source/System/Config.cpp:116-143 | a path without empty segments resolves to member access folded over its segments, starting from the global `Config` |
| System.ResolveDotFree | Source/System/Config.cpp:116-137 | a non-empty name without dots resolves to exactly `Config[name]` |
| System.ResolveExtend | Source/System/Config.cpp:129-139 | appending a non-empty dot-free segment to a path indexes what the shorter path resolved to |
| System.ResolveAbsentPrefix | Source/System/Config.cpp:130-133 | if a path resolves to absent, every longer path that extends it past a dot resolves to absent too |
| System.ResolveWindowDocument | Source/System/Config.cpp:107-144 | for `Config = { Window = { Width = 800, Height = 600 }, Title = "Demo" }`, with any distinct non-empty dot-free names in place of the keys, `Window.Width` is 800, `Window.Depth` is absent, `Title` is `"Demo"` and `Window.` is absent |

## Left out

- The Lua runtime itself (`LuaContext`, parsing and running a script in `doFile`, the messages of `LuaException`) is a foreign library. It is the `Runtime` oracle: a flag for a context that cannot be built, and a function from the globals and the path to a fault or the new globals.
- `Index` rests on an assumption: indexing an absent value or any non-table value yields absent rather than raising. The Lua wrapper that decides this is not part of this model.
- Table keys are strings only. Lua tables can also have numeric and other keys, but a path segment is always used as a string key.
- Numbers are integers. Lua numbers are floating point, and their value plays no part in resolution.
- Logging (`Log()` lines and the two message macros) is output only and has no modelled effect.
- `Build::GetWorkingDir()` is process-wide state. `Load` takes the working directory as a parameter and prefixes it to the file name.
- The scope-exit guards are written as explicit `Cleanup` calls on each failing path, and exceptions as `Fault` values.
- A `LuaRef` returned by `Resolve` is a view into the live context in the source. The model returns the value itself, so it does not capture a reference that becomes stale after a later `Cleanup`, `Initialize` or `Load`.
- `Source/Graphics/Texture.hpp` is not part of this model. It holds OpenGL handles and floating-point geometry, with no algorithm.
