/**
 * Loading the user's handler from a handler string such as
 * `./dir/module.nested.fn` (lib/utils/UserFunction.js): reject relative
 * paths, split off the module root, split the module from the property
 * path, load the module through the loader, classify loader failures, walk
 * the property path and insist on a function.
 *
 * `path.resolve`, `fs.existsSync`, `require.resolve` and `require` are the
 * fields of an `Env`; every call the loader makes on the last three is
 * recorded, so that "before any file-system or loader call" is a statement
 * about an empty trace.
 */
module UserFunction {
  import opened Wrappers
  import opened JsValue
  import Strings
  import Errors

  // ---------------------------------------------------------------------
  // path.basename and _moduleRootAndHandler

  /** The path without its trailing slashes. */
  function StripTrailingSlashes(s: string): (r: string)
    ensures |r| <= |s| && r == s[..|r|]
    ensures r == [] || r[|r| - 1] != '/'
    ensures forall i :: |r| <= i < |s| ==> s[i] == '/'
  {
    if s != [] && s[|s| - 1] == '/' then StripTrailingSlashes(s[..|s| - 1]) else s
  }

  /** The longest suffix without a slash. */
  function LastSegment(s: string): (r: string)
    ensures '/' !in r
    ensures |r| <= |s| && r == s[|s| - |r|..]
    ensures |r| < |s| ==> s[|s| - |r| - 1] == '/'
  {
    if s == [] || s[|s| - 1] == '/' then ""
    else
      var r := LastSegment(s[..|s| - 1]);
      assert s[..|s| - 1][|s| - 1 - |r|..] + [s[|s| - 1]] == s[|s| - 1 - |r|..];
      r + [s[|s| - 1]]
  }

  /**
   * `path.basename(p)` (POSIX): the last slash-free segment once trailing
   * slashes are removed; "" for an empty path or one made of slashes.
   */
  function Basename(p: string): (r: string)
    ensures '/' !in r
    ensures var t := StripTrailingSlashes(p);
      |r| <= |t| && r == t[|t| - |r|..] && (|r| < |t| ==> t[|t| - |r| - 1] == '/')
  {
    LastSegment(StripTrailingSlashes(p))
  }

  /** Where the basename ends in the path: its occurrence at the end of the stripped path. */
  lemma BasenameOccurs(p: string)
    ensures var t := StripTrailingSlashes(p);
      Strings.OccursAt(p, Basename(p), |t| - |Basename(p)|)
  {
    var t := StripTrailingSlashes(p);
    var b := Basename(p);
    assert p[|t| - |b|..|t| - |b| + |b|] == t[|t| - |b|..];
  }

  /** Where `indexOf` finds a string that occurs at `p`: at `p` or earlier, and at `p` exactly when it occurs nowhere before. */
  lemma FirstOccurrence(s: string, h: string, p: nat)
    requires Strings.OccursAt(s, h, p)
    ensures var idx := Strings.IndexOf(s, h);
      && 0 <= idx <= p
      && s[..idx + |h|] == s[..idx] + h
      && (idx == p <==> forall j :: 0 <= j < p ==> !Strings.OccursAt(s, h, j))
  {
    var idx := Strings.IndexOf(s, h);
    assert s[idx..idx + |h|] == h;
    assert s[..idx + |h|] == s[..idx] + s[idx..idx + |h|];
  }

  /**
   * `_moduleRootAndHandler(full)`: the basename is the handler, and the module
   * root is the text before the FIRST occurrence of the basename in the whole
   * string (`substring(0, -1)` would give "", but the basename always occurs).
   */
  function ModuleRootAndHandler(full: string): (r: (string, string))
    ensures r.1 == Basename(full) && '/' !in r.1
    ensures |r.0| + |r.1| <= |full| && full[..|r.0| + |r.1|] == r.0 + r.1
    ensures forall j :: 0 <= j < |r.0| ==> !Strings.OccursAt(full, r.1, j)
    ensures r.0 + r.1 == StripTrailingSlashes(full) <==>
      forall j :: 0 <= j < |StripTrailingSlashes(full)| - |r.1| ==> !Strings.OccursAt(full, r.1, j)
  {
    var handler := Basename(full);
    var idx := Strings.IndexOf(full, handler);
    var t := StripTrailingSlashes(full);
    BasenameOccurs(full);
    FirstOccurrence(full, handler, |t| - |handler|);
    assert full[..idx + |handler|] == t <==> idx == |t| - |handler| by {
      assert t == full[..|t|];
      assert |full[..idx + |handler|]| == idx + |handler|;
    }
    (if idx < 0 then "" else full[..idx], handler)
  }

  /**
   * The first-occurrence rule at work: when the directory is named like the
   * handler, as in `h/h`, the module root comes out empty instead of `h/`.
   */
  lemma ModuleRootOfRepeatedName(h: string)
    requires h != [] && '/' !in h
    ensures ModuleRootAndHandler(h + "/" + h) == ("", h)
  {
    var full := h + "/" + h;
    assert full[|full| - 1] == h[|h| - 1];
    assert StripTrailingSlashes(full) == full;
    var b := Basename(full);
    assert |b| == |h| by {
      assert full[|h|] == '/';
    }
    assert Strings.OccursAt(full, h, 0) by {
      assert full[..|h|] == h;
    }
  }

  // ---------------------------------------------------------------------
  // _splitHandlerString

  /** The characters `.` does not match in a JavaScript regular expression without the `s` flag. */
  predicate IsLineTerminator(c: char)
  {
    c == '\n' || c == '\r' || c as int == 0x2028 || c as int == 0x2029
  }

  /**
   * `/^([^.]*)\.(.*)$/` matches `h` with the dot at index `i`: the text before
   * it has no dot and the text after it no line terminator.
   */
  predicate MatchesAt(h: string, i: int)
  {
    0 <= i < |h| && h[i] == '.' && '.' !in h[..i] && forall j :: i < j < |h| ==> !IsLineTerminator(h[j])
  }

  /** A string matches the pattern at one dot at most: the first. */
  lemma MatchUnique(h: string, i: int, j: int)
    requires MatchesAt(h, i) && MatchesAt(h, j)
    ensures i == j
  {
  }

  /** The index of the first dot, or -1. */
  function FirstDot(h: string): (r: int)
    ensures r == -1 <==> '.' !in h
    ensures r >= 0 ==> r < |h| && h[r] == '.' && '.' !in h[..r]
  {
    if h == [] then -1
    else if h[0] == '.' then 0
    else
      var r := FirstDot(h[1..]);
      assert h == [h[0]] + h[1..];
      if r < 0 then -1
      else
        assert h[..r + 1] == [h[0]] + h[1..][..r];
        r + 1
  }

  /**
   * `_splitHandlerString(h)`: the module and the property path around the
   * first dot; None (MalformedHandlerName "Bad handler") when the pattern does
   * not match, that is when there is no dot or a line terminator follows it.
   */
  function SplitHandlerString(h: string): (r: Option<(string, string)>)
    ensures r.Some? ==> MatchesAt(h, |r.value.0|) && h == r.value.0 + "." + r.value.1 && '.' !in r.value.0
    ensures r.None? <==> forall i :: 0 <= i < |h| ==> !MatchesAt(h, i)
  {
    var d := FirstDot(h);
    if d < 0 then None
    else if exists j :: d < j < |h| && IsLineTerminator(h[j]) then None
    else
      assert MatchesAt(h, d);
      assert h == h[..d] + "." + h[d + 1..];
      Some((h[..d], h[d + 1..]))
  }

  // ---------------------------------------------------------------------
  // _resolveHandler

  /** One step of the reduce: `nested && nested[key]`. */
  function Step(nested: Value, key: string): Value
  {
    if Truthy(nested) then Get(nested, key) else nested
  }

  /** `keys.reduce(Step, v)`. */
  function Fold(v: Value, keys: seq<string>): Value
    decreases |keys|
  {
    if keys == [] then v else Fold(Step(v, keys[0]), keys[1..])
  }

  /** The keys whose properties the reduce actually reads, in order. */
  function Reads(v: Value, keys: seq<string>): seq<string>
    decreases |keys|
  {
    if keys == [] then []
    else (if Truthy(v) then [keys[0]] else []) + Reads(Step(v, keys[0]), keys[1..])
  }

  /** `_resolveHandler(object, path)`: walk the dot-separated keys of the path. */
  function ResolveHandler(obj: Value, path: string): Value
  {
    Fold(obj, Strings.Split(path, '.'))
  }

  /** A two-key path `a.b` reads `a` on the object, then `b` on what that gave. */
  lemma ResolveTwoKeys(obj: Value, a: string, b: string)
    requires obj.Obj? && Lookup(obj.own, a).Some? && '.' !in a && '.' !in b
    ensures ResolveHandler(obj, a + "." + b) == Step(Lookup(obj.own, a).value, b)
  {
    Strings.SplitAfterPiece(a, '.', b);
    Strings.SplitWithoutSeparator(b, '.');
    assert a + "." + b == a + ['.'] + b;
    var keys := Strings.Split(a + "." + b, '.');
    assert keys == [a, b];
    var first := Step(obj, a);
    assert first == Lookup(obj.own, a).value;
    assert Fold(obj, keys) == Fold(first, [b]) by { assert keys[1..] == [b]; }
    assert Fold(first, [b]) == Fold(Step(first, b), []) by { assert [b][1..] == []; }
  }

  /** A path through an array element, such as `handlers.0`, resolves to that element. */
  lemma ResolveArrayElement(obj: Value, a: string, elems: seq<Value>, i: nat)
    requires obj.Obj? && Lookup(obj.own, a) == Some(Arr(elems)) && '.' !in a && i < |elems|
    ensures ResolveHandler(obj, a + "." + Strings.NatToString(i)) == elems[i]
  {
    ResolveTwoKeys(obj, a, Strings.NatToString(i));
    GetElement(elems, i);
  }

  /** A path through a non-empty string's `length` resolves to its length, a number and so not a handler. */
  lemma ResolveStringLength(obj: Value, a: string, text: string, full: string)
    requires obj.Obj? && Lookup(obj.own, a) == Some(Str(text)) && '.' !in a && text != ""
    ensures ResolveHandler(obj, a + ".length") == Num(|text|)
    ensures CheckHandler(full, ResolveHandler(obj, a + ".length"))
         == Err(RuntimeError(Errors.HandlerNotFound, NotAFunctionMessage(full)))
  {
    assert a + ".length" == a + "." + "length";
    ResolveTwoKeys(obj, a, "length");
  }

  /** A falsy accumulator goes through the remaining steps unchanged and reads nothing. */
  lemma {:induction false} FoldFalsy(v: Value, keys: seq<string>)
    requires !Truthy(v)
    ensures Fold(v, keys) == v && Reads(v, keys) == []
  {
    if keys != [] {
      FoldFalsy(v, keys[1..]);
    }
  }

  /** Walking a concatenation of key lists walks the first, then the second from where it stopped. */
  lemma {:induction false} FoldAppend(v: Value, a: seq<string>, b: seq<string>)
    ensures Fold(v, a + b) == Fold(Fold(v, a), b)
    ensures Reads(v, a + b) == Reads(v, a) + Reads(Fold(v, a), b)
    decreases |a|
  {
    if a == [] {
      assert a + b == b;
    } else {
      FoldAppend(Step(v, a[0]), a[1..], b);
      assert (a + b)[1..] == a[1..] + b;
    }
  }

  /**
   * Once the walk reaches a falsy value, that value is the result and no
   * later key is read.
   */
  lemma ShortCircuit(v: Value, a: seq<string>, b: seq<string>)
    requires !Truthy(Fold(v, a))
    ensures Fold(v, a + b) == Fold(v, a)
    ensures Reads(v, a + b) == Reads(v, a)
  {
    FoldAppend(v, a, b);
    FoldFalsy(Fold(v, a), b);
  }

  /** The keys read are a prefix of the keys, and the walk stops early only at a falsy value. */
  lemma {:induction false} ReadsPrefix(v: Value, keys: seq<string>)
    ensures |Reads(v, keys)| <= |keys| && Reads(v, keys) == keys[..|Reads(v, keys)|]
    ensures |Reads(v, keys)| < |keys| ==> !Truthy(Fold(v, keys))
    decreases |keys|
  {
    if keys != [] {
      ReadsPrefix(Step(v, keys[0]), keys[1..]);
      if !Truthy(v) {
        FoldFalsy(v, keys);
      }
    }
  }

  // ---------------------------------------------------------------------
  // The loader

  /**
   * The foreign calls: `path.resolve(appRoot, moduleRoot, moduleName)`,
   * `fs.existsSync`, `require.resolve(moduleName, {paths})` and `require`; the last
   * two give the resolved path or the module's exports, or the thrown value.
   */
  datatype Env = Env(
    resolve: (string, string, string) -> string,
    fileExists: string -> bool,
    requireResolve: (string, seq<string>) -> Result<string, Value>,
    require: string -> Result<Value, Value>)

  /** A file-system or loader call. */
  datatype Call = ExistsSync(path: string) | RequireResolve(moduleName: string, paths: seq<string>) | Require(path: string)

  /** A result together with the calls made to reach it, in order. */
  datatype Traced<T> = Traced(result: T, calls: seq<Call>)

  /** `_canLoadAsFile(p)`: the path or the path with `.js` exists; `||` skips the second check when the first holds. */
  function CanLoadAsFile(env: Env, p: string): (r: Traced<bool>)
    ensures r.result <==> env.fileExists(p) || env.fileExists(p + ".js")
    ensures r.calls == if env.fileExists(p) then [ExistsSync(p)] else [ExistsSync(p), ExistsSync(p + ".js")]
  {
    if env.fileExists(p) then Traced(true, [ExistsSync(p)])
    else Traced(env.fileExists(p + ".js"), [ExistsSync(p), ExistsSync(p + ".js")])
  }

  /**
   * `_tryRequire(appRoot, moduleRoot, moduleName)`: require the Lambda-style path
   * directly when it can be loaded as a file, otherwise resolve the module
   * against `[appRoot, moduleRoot]` and require what that finds.
   */
  function TryRequire(env: Env, appRoot: string, moduleRoot: string, moduleName: string): (r: Traced<Result<Value, Value>>)
    ensures var p := env.resolve(appRoot, moduleRoot, moduleName);
      var probe := CanLoadAsFile(env, p);
      && |r.calls| > |probe.calls|
      && r.calls[..|probe.calls|] == probe.calls
      && (probe.result ==> r.calls[|probe.calls|..] == [Require(p)] && r.result == env.require(p))
      && (!probe.result ==> r.calls[|probe.calls|] == RequireResolve(moduleName, [appRoot, moduleRoot]))
    ensures var p := env.resolve(appRoot, moduleRoot, moduleName);
      var probe := CanLoadAsFile(env, p);
      var found := env.requireResolve(moduleName, [appRoot, moduleRoot]);
      && (!probe.result && found.Err? ==>
            r.result == Err(found.error) && r.calls == probe.calls + [RequireResolve(moduleName, [appRoot, moduleRoot])])
      && (!probe.result && found.Ok? ==>
            r.result == env.require(found.value)
            && r.calls == probe.calls + [RequireResolve(moduleName, [appRoot, moduleRoot]), Require(found.value)])
  {
    var p := env.resolve(appRoot, moduleRoot, moduleName);
    var probe := CanLoadAsFile(env, p);
    if probe.result then Traced(env.require(p), probe.calls + [Require(p)])
    else
      var paths := [appRoot, moduleRoot];
      match env.requireResolve(moduleName, paths)
      case Err(e) => Traced(Err(e), probe.calls + [RequireResolve(moduleName, paths)])
      case Ok(q) => Traced(env.require(q), probe.calls + [RequireResolve(moduleName, paths), Require(q)])
  }

  /** How loading can fail. */
  datatype LoadError =
    | RuntimeError(cls: Errors.ErrorClass, message: string)  // one of the runtime's own errors, `new cls(...)`
    | Propagated(thrown: Value)                               // a loader failure rethrown as it was
    | ReadingCodeThrew                                       // the loader threw null or undefined, and reading `.code` of it throws
    | ConversionThrew                                        // converting the thrown value to a message threw

  /** The runtime error of a class whose constructor is given the value `reason`. */
  function WrapError(cls: Errors.ErrorClass, reason: Value): LoadError
  {
    match Errors.MessageOf(reason)
    case None => ConversionThrew
    case Some(m) => RuntimeError(cls, m)
  }

  /**
   * The catch clause of `_loadUserApp`: a SyntaxError becomes
   * UserCodeSyntaxError, an error whose code is MODULE_NOT_FOUND becomes
   * ImportModuleError, anything else is rethrown unchanged.
   */
  function ClassifyLoadFailure(e: Value): (r: LoadError)
    ensures InstanceOfSyntaxError(e) && Errors.MessageOf(e).Some? ==>
      r == RuntimeError(Errors.UserCodeSyntaxError, Errors.MessageOf(e).value)
    ensures !InstanceOfSyntaxError(e) && !Nullish(e) && Get(e, "code") == Str("MODULE_NOT_FOUND")
            && Errors.MessageOf(e).Some? ==>
      r == RuntimeError(Errors.ImportModuleError, Errors.MessageOf(e).value)
    ensures !InstanceOfSyntaxError(e) && !Nullish(e) && Get(e, "code") != Str("MODULE_NOT_FOUND") ==> r == Propagated(e)
    ensures Nullish(e) ==> r == ReadingCodeThrew
    ensures
      (InstanceOfSyntaxError(e) || (!Nullish(e) && Get(e, "code") == Str("MODULE_NOT_FOUND")))
      && Errors.MessageOf(e).None?
      ==> r == ConversionThrew
    ensures r.RuntimeError? ==> r.cls == Errors.UserCodeSyntaxError || r.cls == Errors.ImportModuleError
  {
    if InstanceOfSyntaxError(e) then WrapError(Errors.UserCodeSyntaxError, e)
    else if Nullish(e) then ReadingCodeThrew
    else if Get(e, "code") == Str("MODULE_NOT_FOUND") then WrapError(Errors.ImportModuleError, e)
    else Propagated(e)
  }

  /** `_loadUserApp`: the module's exports, or the classified failure. */
  function LoadUserApp(env: Env, appRoot: string, moduleRoot: string, moduleName: string): (r: Traced<Result<Value, LoadError>>)
    ensures r.calls == TryRequire(env, appRoot, moduleRoot, moduleName).calls
    ensures TryRequire(env, appRoot, moduleRoot, moduleName).result.Ok? ==>
      r.result == Ok(TryRequire(env, appRoot, moduleRoot, moduleName).result.value)
    ensures TryRequire(env, appRoot, moduleRoot, moduleName).result.Err? ==>
      r.result == Err(ClassifyLoadFailure(TryRequire(env, appRoot, moduleRoot, moduleName).result.error))
  {
    var t := TryRequire(env, appRoot, moduleRoot, moduleName);
    match t.result
    case Ok(app) => Traced(Ok(app), t.calls)
    case Err(e) => Traced(Err(ClassifyLoadFailure(e)), t.calls)
  }

  /** The message `_throwIfInvalidHandler` gives. */
  function InvalidHandlerMessage(full: string): string
  {
    "'" + full + "' is not a valid handler name. Use absolute paths when specifying root directories in handler names."
  }

  const BadHandlerMessage: string := "Bad handler"

  function UndefinedMessage(full: string): string
  {
    full + " is undefined or not exported"
  }

  function NotAFunctionMessage(full: string): string
  {
    full + " is not a function"
  }

  /**
   * The checks on the resolved handler: a falsy value is "undefined or not
   * exported", any other non-function "not a function".
   */
  function CheckHandler(full: string, handler: Value): (r: Result<Value, LoadError>)
    ensures r.Ok? <==> handler.Obj? && handler.callable
    ensures r.Ok? ==> r.value == handler
    ensures !Truthy(handler) ==> r == Err(RuntimeError(Errors.HandlerNotFound, UndefinedMessage(full)))
    ensures Truthy(handler) && !r.Ok? ==> r == Err(RuntimeError(Errors.HandlerNotFound, NotAFunctionMessage(full)))
  {
    if !Truthy(handler) then Err(RuntimeError(Errors.HandlerNotFound, UndefinedMessage(full)))
    else if TypeOf(handler) != "function" then Err(RuntimeError(Errors.HandlerNotFound, NotAFunctionMessage(full)))
    else Ok(handler)
  }

  /** Load the module, then resolve and check the handler in its exports. */
  function LoadHandler(env: Env, appRoot: string, full: string, moduleRoot: string, moduleName: string, handlerPath: string)
    : (r: Traced<Result<Value, LoadError>>)
    ensures r.calls == TryRequire(env, appRoot, moduleRoot, moduleName).calls && r.calls != []
    ensures r.result.Ok? ==> r.result.value.Obj? && r.result.value.callable
    ensures r.result.Err? && r.result.error.RuntimeError? ==> r.result.error.cls != Errors.MalformedHandlerName
  {
    var app := LoadUserApp(env, appRoot, moduleRoot, moduleName);
    match app.result
    case Err(e) => Traced(Err(e), app.calls)
    case Ok(userApp) => Traced(CheckHandler(full, ResolveHandler(userApp, handlerPath)), app.calls)
  }

  /**
   * `load(appRoot, fullHandlerString)`: the user's handler function or the
   * error the runtime throws, with the trace of file-system and loader calls.
   * Both MalformedHandlerName cases are decided before any call.
   */
  function Load(env: Env, appRoot: string, full: string): (r: Traced<Result<Value, LoadError>>)
    ensures Strings.Includes(full, "..") ==>
      r == Traced(Err(RuntimeError(Errors.MalformedHandlerName, InvalidHandlerMessage(full))), [])
    ensures !Strings.Includes(full, "..") && SplitHandlerString(Basename(full)).None? ==>
      r == Traced(Err(RuntimeError(Errors.MalformedHandlerName, BadHandlerMessage)), [])
    ensures r.result.Ok? ==> r.result.value.Obj? && r.result.value.callable
    ensures r.calls == [] <==> r.result.Err? && r.result.error.RuntimeError? && r.result.error.cls == Errors.MalformedHandlerName
  {
    if Strings.Includes(full, "..") then
      Traced(Err(RuntimeError(Errors.MalformedHandlerName, InvalidHandlerMessage(full))), [])
    else
      var (moduleRoot, moduleAndHandler) := ModuleRootAndHandler(full);
      match SplitHandlerString(moduleAndHandler)
      case None => Traced(Err(RuntimeError(Errors.MalformedHandlerName, BadHandlerMessage)), [])
      case Some((moduleName, handlerPath)) => LoadHandler(env, appRoot, full, moduleRoot, moduleName, handlerPath)
  }

  /**
   * Once the module is loaded, the outcome depends only on the value the
   * property path resolves to: a falsy value is "undefined or not exported",
   * a truthy non-function "not a function", and a function is the handler.
   */
  lemma LoadResolves(env: Env, appRoot: string, full: string, moduleName: string, handlerPath: string, userApp: Value)
    requires !Strings.Includes(full, "..")
    requires SplitHandlerString(Basename(full)) == Some((moduleName, handlerPath))
    requires LoadUserApp(env, appRoot, ModuleRootAndHandler(full).0, moduleName).result == Ok(userApp)
    ensures Load(env, appRoot, full).result == CheckHandler(full, ResolveHandler(userApp, handlerPath))
  {
  }

  /** A module that cannot be loaded fails the load with its classified failure, after the loader's calls. */
  lemma LoadFailsWithModule(env: Env, appRoot: string, full: string, moduleName: string, handlerPath: string, e: Value)
    requires !Strings.Includes(full, "..")
    requires SplitHandlerString(Basename(full)) == Some((moduleName, handlerPath))
    requires TryRequire(env, appRoot, ModuleRootAndHandler(full).0, moduleName).result == Err(e)
    ensures Load(env, appRoot, full) == Traced(Err(ClassifyLoadFailure(e)), TryRequire(env, appRoot, ModuleRootAndHandler(full).0, moduleName).calls)
  {
  }
}
