/**
 * The runtime's error handling (lib/Errors/index.js): the `isError`
 * predicate, the normalisation of any thrown value into the
 * `{errorType, errorMessage, trace}` record the Runtime API takes, the
 * tab-prefixed JSON diagnostic `toFormatted` writes, the projection that
 * makes an error's interesting properties enumerable, and the runtime's own
 * error classes with their `Runtime.*` names.
 */
module Errors {
  import opened Wrappers
  import opened JsValue
  import opened Json
  import Strings

  // ---------------------------------------------------------------------
  // The runtime's error classes

  /** The classes the runtime throws; each extends `Error` through `ExtendedError`. */
  datatype ErrorClass =
    | ImportModuleError
    | HandlerNotFound
    | MalformedHandlerName
    | UserCodeSyntaxError
    | UnhandledPromiseRejection

  function ClassName(c: ErrorClass): string
  {
    match c
    case ImportModuleError => "ImportModuleError"
    case HandlerNotFound => "HandlerNotFound"
    case MalformedHandlerName => "MalformedHandlerName"
    case UserCodeSyntaxError => "UserCodeSyntaxError"
    case UnhandledPromiseRejection => "UnhandledPromiseRejection"
  }

  /** The `name` every instance of a runtime error class inherits from its prototype. */
  function ErrorName(c: ErrorClass): (name: string)
    ensures name == "Runtime." + ClassName(c)
    ensures |name| > |"Runtime."| && name[..|"Runtime."|] == "Runtime."
  {
    "Runtime." + ClassName(c)
  }

  /** Different classes have different names, so an errorType identifies its class. */
  lemma ErrorNameInjective(c: ErrorClass, d: ErrorClass)
    requires ErrorName(c) == ErrorName(d)
    ensures c == d
  {
    assert ErrorName(c)[8..] == ClassName(c) && ErrorName(d)[8..] == ClassName(d);
  }

  /** The first line V8 writes into a stack: the name, then ": " and the message when there is one. */
  function StackHeader(name: string, message: string): string
  {
    if message == "" then name else name + ": " + message
  }

  /** A V8 stack: the header line and one "    at ..." line for each frame the engine reports. */
  function V8Stack(name: string, message: string, frames: seq<string>): string
  {
    StackHeader(name, message) + Strings.Concat(seq(|frames|, i requires 0 <= i < |frames| => "\n    at " + frames[i]))
  }

  /** The message `new Error(reason)` stores: "" for an undefined reason, else `String(reason)` (None when that throws). */
  function MessageOf(reason: Value): Option<string>
  {
    if reason.Undefined? then Some("") else ToString(reason)
  }

  /** The properties of an error that are not own and enumerable: the inherited name, the message and the stack. */
  function ErrorHidden(name: string, message: string, frames: seq<string>): (props: seq<Prop>)
    ensures Lookup(props, "name") == Some(Str(name))
    ensures Lookup(props, "message") == Some(Str(message))
    ensures Lookup(props, "stack") == Some(Str(V8Stack(name, message, frames)))
  {
    var props := [Prop("name", Str(name)), Prop("message", Str(message)), Prop("stack", Str(V8Stack(name, message, frames)))];
    assert DistinctKeys(props);
    LookupDistinct(props, 0);
    LookupDistinct(props, 1);
    LookupDistinct(props, 2);
    props
  }

  /**
   * `new C(reason)` for a runtime error class C, with `own` the enumerable
   * properties its constructor adds; None when converting the reason to the
   * message throws. The name comes from the prototype, message and stack are
   * not enumerable, and `toString()` is `Error.prototype.toString`.
   */
  function NewRuntimeError(c: ErrorClass, reason: Value, own: seq<Prop>, frames: seq<string>): (r: Option<Value>)
    ensures r.Some? <==> MessageOf(reason).Some?
    ensures r.Some? ==> InstanceOfError(r.value) && IsNativeError(r.value) && r.value.own == own
    ensures r.Some? && "name" !in Keys(own) ==> Get(r.value, "name") == Str(ErrorName(c))
    ensures r.Some? && "message" !in Keys(own) ==> Get(r.value, "message") == Str(MessageOf(reason).value)
    ensures r.Some? && "stack" !in Keys(own) ==>
      Get(r.value, "stack") == Str(V8Stack(ErrorName(c), MessageOf(reason).value, frames))
    ensures r.Some? ==> CallToString(r.value) == Some(StackHeader(ErrorName(c), MessageOf(reason).value))
  {
    match MessageOf(reason)
    case None => None
    case Some(m) =>
      var name := ErrorName(c);
      Some(Obj(own, ErrorHidden(name, m, frames), false, true, ErrorProto, Some(StackHeader(name, m))))
  }

  /** `new C(message)` for a class whose constructor adds no properties of its own. */
  function RuntimeErrorValue(c: ErrorClass, message: string, frames: seq<string>): Value
  {
    NewRuntimeError(c, Str(message), [], frames).value
  }

  /**
   * `new UnhandledPromiseRejection(reason, promise)`: the message comes from the
   * reason, and both arguments are kept as own enumerable properties.
   */
  function UnhandledRejectionValue(reason: Value, promise: Value, frames: seq<string>): (r: Option<Value>)
    ensures r.Some? <==> MessageOf(reason).Some?
    ensures r.Some? ==> r.value.Obj? && r.value.own == [Prop("reason", reason), Prop("promise", promise)]
  {
    NewRuntimeError(UnhandledPromiseRejection, reason, [Prop("reason", reason), Prop("promise", promise)], frames)
  }

  // ---------------------------------------------------------------------
  // isError and toRuntimeResponse

  predicate NonEmptyString(v: Value)
  {
    v.Str? && v.s != ""
  }

  /** `isError(v)`: a truthy value whose name, message and stack are all truthy strings. */
  function IsError(v: Value): (b: bool)
    ensures b <==> Truthy(v) && NonEmptyString(Get(v, "name")) && NonEmptyString(Get(v, "message"))
                   && NonEmptyString(Get(v, "stack"))
    ensures b ==> v.Obj?
  {
    Truthy(v) && Truthy(Get(v, "name")) && Truthy(Get(v, "message")) && Truthy(Get(v, "stack"))
    && TypeOf(Get(v, "name")) == "string" && TypeOf(Get(v, "message")) == "string"
    && TypeOf(Get(v, "stack")) == "string"
  }

  /** What the Runtime API receives for a failure. */
  datatype RuntimeResponse = RuntimeResponse(errorType: Value, errorMessage: Value, trace: seq<string>)

  const HandledMessage: string :=
    "callback called with Error argument, but there was a problem while retrieving one or more of its message, name, and stack"

  /** The response used when the value's fields could not be read. */
  const Handled: RuntimeResponse := RuntimeResponse(Str("handled"), Str(HandledMessage), [])

  /** The branch `toRuntimeResponse` takes for error-like values. */
  predicate ErrorLike(v: Value)
  {
    IsNativeError(v) || IsError(v)
  }

  /**
   * `toRuntimeResponse(v)`, which never throws: an error-like value with a
   * string stack gives its name, message and stack lines; an error-like value
   * whose stack is missing, empty or not a string gives the "handled" sentinel
   * (the explicit throw and the failing `split` are caught alike); anything
   * else gives its `typeof` tag and `toString()`, or the sentinel when that
   * call throws.
   */
  function ToRuntimeResponse(v: Value): (r: RuntimeResponse)
    ensures ErrorLike(v) && NonEmptyString(Get(v, "stack")) ==>
      && r.errorType == Get(v, "name")
      && r.errorMessage == Get(v, "message")
      && |r.trace| >= 1
      && Strings.Join(r.trace, '\n') == Get(v, "stack").s
      && forall i :: 0 <= i < |r.trace| ==> '\n' !in r.trace[i]
    ensures ErrorLike(v) && !NonEmptyString(Get(v, "stack")) ==> r == Handled
    ensures !ErrorLike(v) && CallToString(v).Some? ==>
      r == RuntimeResponse(Str(TypeOf(v)), Str(CallToString(v).value), [])
    ensures !ErrorLike(v) && CallToString(v).None? ==> r == Handled
    ensures Nullish(v) ==> r == Handled
    ensures !(r.errorType.Str? && r.errorMessage.Str?) ==> IsNativeError(v) && !IsError(v)
  {
    if ErrorLike(v) then
      var stack := Get(v, "stack");
      if !Truthy(stack) || !stack.Str? then Handled
      else
        Strings.JoinSplit(stack.s, '\n');
        RuntimeResponse(Get(v, "name"), Get(v, "message"), Strings.Split(stack.s, '\n'))
    else
      match CallToString(v)
      case None => Handled
      case Some(m) => RuntimeResponse(Str(TypeOf(v)), Str(m), [])
  }

  /** A plain object with the given own enumerable properties. */
  function PlainObject(props: seq<Prop>): Value
  {
    Obj(props, [], false, false, OrdinaryProto, Some("[object Object]"))
  }

  /** The response record as the JavaScript object that gets serialised. */
  function ResponseValue(r: RuntimeResponse): Value
  {
    PlainObject([Prop("errorType", r.errorType), Prop("errorMessage", r.errorMessage), Prop("trace", StringArray(r.trace))])
  }

  lemma StringArraySerialisable(lines: seq<string>)
    ensures Serialisable(StringArray(lines))
  {
  }

  /** A response serialises unless its type or message reaches a BigInt. */
  lemma ResponseStringifyThrowsIff(r: RuntimeResponse)
    ensures Stringify(ResponseValue(r)).Throws? <==> !Serialisable(r.errorType) || !Serialisable(r.errorMessage)
  {
    StringifyThrowsIff(ResponseValue(r));
    StringArraySerialisable(r.trace);
    PlainSerialisable(Prop("errorType", r.errorType), Prop("errorMessage", r.errorMessage), Prop("trace", StringArray(r.trace)));
  }

  /** A plain object of three properties serialises when each of its values does. */
  lemma PlainSerialisable(a: Prop, b: Prop, c: Prop)
    ensures Serialisable(PlainObject([a, b, c])) <==> Serialisable(a.val) && Serialisable(b.val) && Serialisable(c.val)
  {
    var own := [a, b, c];
    assert own[0] == a && own[1] == b && own[2] == c;
  }

  // ---------------------------------------------------------------------
  // _withEnumerableProperties and the replacer-driven JSON.stringify

  /** The object literal `_withEnumerableProperties` starts from. */
  function DefaultProps(v: Value): (props: seq<Prop>)
    requires !Nullish(v)
    ensures Keys(props) == ["errorType", "errorMessage", "code"] && DistinctKeys(props)
  {
    [Prop("errorType", Get(v, "name")), Prop("errorMessage", Get(v, "message")), Prop("code", Get(v, "code"))]
  }

  /** A key that does not start with a digit is not an array index. */
  lemma NonDigitNotIndex(k: string)
    requires |k| > 0 && !Strings.IsDigit(k[0])
    ensures CanonicalIndex(k).None? && !IsArrayIndex(k)
  {
  }

  /** The own properties of the projection of an error, built as `_withEnumerableProperties` builds them. */
  function Projection(v: Value): (props: seq<Prop>)
    requires InstanceOfError(v)
    ensures |props| >= 3
    ensures forall p :: p in props ==>
      p in DefaultProps(v) || p in v.own || (p.key == "stack" && Get(v, "stack").Str? && p.val == StringArray(Strings.Split(Get(v, "stack").s, '\n')))
  {
    var merged := Assign(DefaultProps(v), v.own);
    var stack := Get(v, "stack");
    if stack.Str? then SetProp(merged, "stack", StringArray(Strings.Split(stack.s, '\n'))) else merged
  }

  /**
   * When no own key of the error is an array index, the projection starts with
   * errorType, errorMessage and code, each the default unless an own
   * property overrides it.
   */
  lemma ProjectionDefaults(v: Value)
    requires InstanceOfError(v) && NoArrayIndexKeys(v.own)
    ensures var props := Projection(v);
      |props| >= 3 && Keys(props)[..3] == ["errorType", "errorMessage", "code"]
    ensures forall i :: 0 <= i < 3 && DefaultProps(v)[i].key !in Keys(v.own) ==> Projection(v)[i] == DefaultProps(v)[i]
  {
    var base := DefaultProps(v);
    var merged := Assign(base, v.own);
    var props := Projection(v);
    ProjectionKeepsHead(v);
    assert forall i :: 0 <= i < 3 ==> props[i] == merged[i] && merged[i].key == base[i].key;
    assert Keys(props)[..3] == Keys(base);
  }

  /** Setting the stack lines leaves the first three properties of the merge where they are. */
  lemma ProjectionKeepsHead(v: Value)
    requires InstanceOfError(v) && NoArrayIndexKeys(v.own)
    ensures var merged := Assign(DefaultProps(v), v.own);
      |merged| >= 3 && forall i :: 0 <= i < 3 ==> Projection(v)[i] == merged[i]
  {
    var base := DefaultProps(v);
    var merged := Assign(base, v.own);
    assert forall i :: 0 <= i < 3 ==> merged[i].key == base[i].key;
    if Get(v, "stack").Str? {
      NonDigitNotIndex("stack");
      var props := SetProp(merged, "stack", StringArray(Strings.Split(Get(v, "stack").s, '\n')));
      assert forall i :: 0 <= i < 3 ==> merged[i].key != "stack";
      assert forall i :: 0 <= i < 3 ==> props[i] == merged[i];
    }
  }

  /** An error with an own array-index key projects to an object whose first key is an array index, not errorType. */
  lemma ProjectionIndexFirst(v: Value)
    requires InstanceOfError(v) && !NoArrayIndexKeys(v.own)
    ensures IndexFirst(Projection(v))
  {
    var base := DefaultProps(v);
    NonDigitNotIndex("errorType");
    NonDigitNotIndex("errorMessage");
    NonDigitNotIndex("code");
    AssignIndexFirst(base, v.own);
    if Get(v, "stack").Str? {
      SetPropKeepsIndexFirst(Assign(base, v.own), "stack", StringArray(Strings.Split(Get(v, "stack").s, '\n')));
    }
  }

  /**
   * `_withEnumerableProperties(v)`: an `Error` instance becomes a plain object
   * that starts with errorType, errorMessage and code read from the error,
   * takes the error's own enumerable properties over them, and, when the stack
   * is a string, holds the stack's lines under `stack`. Other values are
   * returned as they are.
   */
  function WithEnumerableProperties(v: Value): (r: Value)
    ensures !InstanceOfError(v) ==> r == v
    ensures InstanceOfError(v) ==> r.Obj? && !r.callable && r.hidden == [] && r.own == Projection(v)
    ensures !InstanceOfError(r)
  {
    if InstanceOfError(v) then PlainObject(Projection(v)) else v
  }

  /** The projection is idempotent: a projected value is left alone. */
  lemma WithEnumerablePropertiesIdempotent(v: Value)
    ensures WithEnumerableProperties(WithEnumerableProperties(v)) == WithEnumerableProperties(v)
  {
  }

  /** What the projection's own property `k` is, for an error whose own keys are distinct. */
  function ProjectedProp(v: Value, k: string): Option<Value>
    requires InstanceOfError(v)
  {
    if k == "stack" && Get(v, "stack").Str? then Some(StringArray(Strings.Split(Get(v, "stack").s, '\n')))
    else if k in Keys(v.own) then Lookup(v.own, k)
    else if k == "errorType" then Some(Get(v, "name"))
    else if k == "errorMessage" then Some(Get(v, "message"))
    else if k == "code" then Some(Get(v, "code"))
    else None
  }

  /**
   * Every key of the projection of an error: the stack lines under `stack`,
   * the error's own properties over the three defaults, and nothing else.
   */
  lemma WithEnumerablePropertiesLookup(v: Value, k: string)
    requires InstanceOfError(v) && DistinctKeys(v.own)
    ensures Lookup(WithEnumerableProperties(v).own, k) == ProjectedProp(v, k)
  {
    var stack := Get(v, "stack");
    if !(k == "stack" && stack.Str?) {
      MergedLookup(v, k);
    }
  }

  /** What `Object.assign` of the error's own properties over the three defaults holds under `k`. */
  lemma MergedLookup(v: Value, k: string)
    requires InstanceOfError(v) && DistinctKeys(v.own)
    ensures Lookup(Assign(DefaultProps(v), v.own), k)
         == if k in Keys(v.own) then Lookup(v.own, k)
            else if k == "errorType" then Some(Get(v, "name"))
            else if k == "errorMessage" then Some(Get(v, "message"))
            else if k == "code" then Some(Get(v, "code"))
            else None
  {
    var base := DefaultProps(v);
    if k in Keys(v.own) {
      AssignLookup(base, v.own, k);
    } else {
      assert Lookup(Assign(base, v.own), k) == Lookup(base, k);
      if k == "errorType" {
        LookupDistinct(base, 0);
      } else if k == "errorMessage" {
        LookupDistinct(base, 1);
      } else if k == "code" {
        LookupDistinct(base, 2);
      } else {
        assert k !in Keys(base);
      }
    }
  }

  lemma StringArrayDepth(lines: seq<string>)
    ensures Depth(StringArray(lines)) == 0
  {
    var elems := StringArray(lines).elems;
    var ds := seq(|elems|, i requires 0 <= i < |elems| => Depth(elems[i]));
    assert forall i :: 0 <= i < |ds| ==> ds[i] == 0;
  }

  /** Every property value of the projection of an error is shallower than the error. */
  lemma ProjectionShallower(v: Value)
    requires InstanceOfError(v)
    ensures var w := WithEnumerableProperties(v);
      forall i :: 0 <= i < |w.own| ==> Depth(w.own[i].val) < Depth(v)
  {
    var w := WithEnumerableProperties(v);
    var base := DefaultProps(v);
    GetShallower(v, "name");
    GetShallower(v, "message");
    GetShallower(v, "code");
    assert forall p :: p in base ==> Depth(p.val) < Depth(v);
    if Get(v, "stack").Str? {
      StringArrayDepth(Strings.Split(Get(v, "stack").s, '\n'));
    }
    forall i | 0 <= i < |w.own| ensures Depth(w.own[i].val) < Depth(v) {
      var p := w.own[i];
      assert p in w.own;
      if p in v.own {
        PropShallower(v, p);
      }
    }
  }

  /**
   * `JSON.stringify(v, (_k, v) => _withEnumerableProperties(v))`: every value
   * visited, the root included, is projected first, and the projection's
   * properties are visited in turn.
   */
  function StringifyReplaced(v: Value): Json
    decreases Depth(v), v
  {
    if InstanceOfError(v) then
      var w := WithEnumerableProperties(v);
      ProjectionShallower(v);
      ObjectText(Keys(w.own), seq(|w.own|, i requires 0 <= i < |w.own| => StringifyReplaced(w.own[i].val)))
    else
      match v
      case Arr(elems) =>
        ElementsNotDeeper(v);
        ArrayText(seq(|elems|, i requires 0 <= i < |elems| => StringifyReplaced(elems[i])))
      case Obj(own, _, callable, _, _, _) =>
        if callable then Absent
        else
          OwnShallower(v);
          ObjectText(Keys(own), seq(|own|, i requires 0 <= i < |own| => StringifyReplaced(own[i].val)))
      case _ => Stringify(v)
  }

  lemma ElementsNotDeeper(v: Value)
    requires v.Arr?
    ensures forall i :: 0 <= i < |v.elems| ==> Depth(v.elems[i]) <= Depth(v)
  {
    var ds := seq(|v.elems|, i requires 0 <= i < |v.elems| => Depth(v.elems[i]));
    assert forall i :: 0 <= i < |v.elems| ==> ds[i] == Depth(v.elems[i]);
  }

  lemma OwnShallower(v: Value)
    requires v.Obj?
    ensures forall i :: 0 <= i < |v.own| ==> Depth(v.own[i].val) < Depth(v)
  {
    forall i | 0 <= i < |v.own| ensures Depth(v.own[i].val) < Depth(v) {
      PropShallower(v, v.own[i]);
    }
  }

  /** No `Error` instance is reachable through what JSON.stringify visits. */
  predicate NoErrorInside(v: Value)
  {
    match v
    case Arr(elems) => forall i :: 0 <= i < |elems| ==> NoErrorInside(elems[i])
    case Obj(own, _, callable, _, proto, _) =>
      proto == OrdinaryProto && (callable || forall i :: 0 <= i < |own| ==> NoErrorInside(own[i].val))
    case _ => true
  }

  /** Without errors to project, the replacer changes nothing. */
  lemma {:induction false} StringifyReplacedWithoutErrors(v: Value)
    requires NoErrorInside(v)
    ensures StringifyReplaced(v) == Stringify(v)
  {
    match v
    case Arr(elems) =>
      forall i | 0 <= i < |elems| ensures StringifyReplaced(elems[i]) == Stringify(elems[i]) {
        StringifyReplacedWithoutErrors(elems[i]);
      }
      assert seq(|elems|, i requires 0 <= i < |elems| => StringifyReplaced(elems[i]))
          == seq(|elems|, i requires 0 <= i < |elems| => Stringify(elems[i]));
    case Obj(own, _, callable, _, _, _) =>
      if !callable {
        forall i | 0 <= i < |own| ensures StringifyReplaced(own[i].val) == Stringify(own[i].val) {
          StringifyReplacedWithoutErrors(own[i].val);
        }
        assert seq(|own|, i requires 0 <= i < |own| => StringifyReplaced(own[i].val))
            == seq(|own|, i requires 0 <= i < |own| => Stringify(own[i].val));
      }
    case _ =>
  }

  // ---------------------------------------------------------------------
  // toFormatted

  /** `"\t" + s` for a stringify result: `undefined` concatenates as the word. */
  function Tabbed(j: Json): string
    requires !j.Throws?
  {
    if j.Text? then "\t" + j.s else "\tundefined"
  }

  /**
   * `toFormatted(v)`: the tab-prefixed replacer-driven JSON of the value; when
   * that throws, the tab-prefixed JSON of its runtime response; None when that
   * throws as well (the function itself then throws).
   */
  function ToFormatted(v: Value): (r: Option<string>)
    ensures r.Some? ==> |r.value| >= 1 && r.value[0] == '\t'
    ensures !StringifyReplaced(v).Throws? ==> r == Some(Tabbed(StringifyReplaced(v)))
    ensures StringifyReplaced(v).Throws? && !Stringify(ResponseValue(ToRuntimeResponse(v))).Throws? ==>
      r == Some(Tabbed(Stringify(ResponseValue(ToRuntimeResponse(v)))))
    ensures r.None? <==> StringifyReplaced(v).Throws? && Stringify(ResponseValue(ToRuntimeResponse(v))).Throws?
  {
    var primary := StringifyReplaced(v);
    if !primary.Throws? then Some(Tabbed(primary))
    else
      var fallback := Stringify(ResponseValue(ToRuntimeResponse(v)));
      if !fallback.Throws? then Some(Tabbed(fallback)) else None
  }

  /** toFormatted gives a string whenever the response's type and message are free of BigInts. */
  lemma ToFormattedDefined(v: Value)
    requires Serialisable(ToRuntimeResponse(v).errorType) && Serialisable(ToRuntimeResponse(v).errorMessage)
    ensures ToFormatted(v).Some?
  {
    ResponseStringifyThrowsIff(ToRuntimeResponse(v));
  }

  /** The replacer-driven JSON of an error is that of its projection. */
  lemma StringifyReplacedError(v: Value)
    requires InstanceOfError(v)
    ensures StringifyReplaced(v) == StringifyReplaced(WithEnumerableProperties(v))
  {
  }

  /** A BigInt and a string serialise as `JSON.stringify` serialises them, replacer or not. */
  lemma StringifyReplacedPrimitive(x: Value)
    requires x.BigInt? || x.Str?
    ensures StringifyReplaced(x) == Stringify(x)
  {
  }

  /**
   * The projection of an error whose own properties neither override errorType
   * nor have an array-index key starts with its name.
   */
  lemma ProjectionFirst(v: Value)
    requires InstanceOfError(v) && NoArrayIndexKeys(v.own) && "errorType" !in Keys(v.own)
    ensures var own := WithEnumerableProperties(v).own;
      |own| >= 3 && own[0] == Prop("errorType", Get(v, "name"))
  {
    ProjectionDefaults(v);
    assert DefaultProps(v)[0] == Prop("errorType", Get(v, "name"));
  }

  /** Likewise, when the own properties override neither errorType nor errorMessage, it starts with the name and the message. */
  lemma ProjectionFirstTwo(v: Value)
    requires InstanceOfError(v) && NoArrayIndexKeys(v.own) && "errorType" !in Keys(v.own) && "errorMessage" !in Keys(v.own)
    ensures var own := WithEnumerableProperties(v).own;
      |own| >= 3 && own[0] == Prop("errorType", Get(v, "name")) && own[1] == Prop("errorMessage", Get(v, "message"))
  {
    ProjectionFirst(v);
    assert DefaultProps(v)[1] == Prop("errorMessage", Get(v, "message"));
  }

  /** The replacer-driven JSON of a plain object with a BigInt property throws. */
  lemma ReplacedPlainThrows(own: seq<Prop>, p: Prop)
    requires p in own && p.val.BigInt?
    ensures StringifyReplaced(PlainObject(own)).Throws?
  {
    var parts := seq(|own|, i requires 0 <= i < |own| => StringifyReplaced(own[i].val));
    var i :| 0 <= i < |own| && own[i] == p;
    StringifyReplacedPrimitive(p.val);
    assert parts[i].Throws?;
  }

  /** The replacer-driven JSON of an error throws when its errorType comes from a BigInt name. */
  lemma ProjectionOfBigIntNameThrows(v: Value)
    requires InstanceOfError(v) && Get(v, "name").BigInt? && "errorType" !in Keys(v.own)
    ensures StringifyReplaced(v).Throws?
  {
    var merged := Assign(DefaultProps(v), v.own);
    var name := Prop("errorType", Get(v, "name"));
    assert Lookup(DefaultProps(v), "errorType") == Some(name.val);
    assert Lookup(merged, "errorType") == Some(name.val);
    assert Lookup(WithEnumerableProperties(v).own, "errorType") == Some(name.val);
    StringifyReplacedError(v);
    ReplacedPlainThrows(WithEnumerableProperties(v).own, name);
  }

  /**
   * toFormatted itself throws for a native error whose name is a BigInt and
   * whose stack is a non-empty string: both serialisations reach the BigInt.
   */
  lemma ToFormattedThrows(v: Value)
    requires IsNativeError(v) && InstanceOfError(v) && "errorType" !in Keys(v.own)
    requires Get(v, "name").BigInt? && NonEmptyString(Get(v, "stack"))
    ensures ToFormatted(v).None?
  {
    ProjectionOfBigIntNameThrows(v);
    ResponseStringifyThrowsIff(ToRuntimeResponse(v));
  }

  // ---------------------------------------------------------------------
  // Reading the head of a formatted error back

  const ErrorTypeName: string := "errorType"
  const ErrorMessageName: string := "errorMessage"

  /** Read one `"key":"value"` member from the start of `s`: the key, the value and the text after it. */
  function ParseMember(s: string): Option<(string, string, string)>
  {
    match ParseString(s)
    case None => None
    case Some((k, r)) =>
      if r == [] || r[0] != ':' then None
      else match ParseString(r[1..])
        case None => None
        case Some((v, rest)) => Some((k, v, rest))
  }

  /** One `"key":"value"` member of an object text whose value is a string. */
  datatype Member = Member(key: string, value: string)

  /** Read the first two members of a JSON object text when both values are strings. */
  function ParseHead(s: string): Option<(Member, Member)>
  {
    if s == [] || s[0] != '{' then None
    else match ParseMember(s[1..])
      case None => None
      case Some((k1, t, r)) =>
        if r == [] || r[0] != ',' then None
        else match ParseMember(r[1..])
          case None => None
          case Some((k2, m, _)) => Some((Member(k1, t), Member(k2, m)))
  }

  /** The head an object text starting with errorType `t` and errorMessage `m` has. */
  function TypeAndMessage(t: string, m: string): (Member, Member)
  {
    (Member(ErrorTypeName, t), Member(ErrorMessageName, m))
  }

  lemma ParseMemberOf(k: string, v: string, rest: string)
    ensures ParseMember(Quote(k) + ([':'] + (Quote(v) + rest))) == Some((k, v, rest))
  {
    QuoteRoundTrip(k, [':'] + (Quote(v) + rest));
    assert ([':'] + (Quote(v) + rest))[1..] == Quote(v) + rest;
    QuoteRoundTrip(v, rest);
  }

  /** A text that starts with two string members reads back as them, whatever follows. */
  lemma ParseHeadOf(k1: string, t: string, k2: string, m: string, rest: string)
    ensures ParseHead(['{'] + (Quote(k1) + ([':'] + (Quote(t) + ([','] + (Quote(k2) + ([':'] + (Quote(m) + rest))))))))
         == Some((Member(k1, t), Member(k2, m)))
  {
    var r := [','] + (Quote(k2) + ([':'] + (Quote(m) + rest)));
    assert (['{'] + (Quote(k1) + ([':'] + (Quote(t) + r))))[1..] == Quote(k1) + ([':'] + (Quote(t) + r));
    ParseMemberOf(k1, t, r);
    assert r[1..] == Quote(k2) + ([':'] + (Quote(m) + rest));
    ParseMemberOf(k2, m, rest);
  }

  /** The object text of two members and what follows, regrouped to the shape ParseHead reads. */
  lemma Regroup(q1: string, q2: string, q3: string, q4: string, after: string)
    ensures "{" + ((q1 + ":" + q2) + [','] + (q3 + ":" + q4) + after) + "}"
         == ['{'] + (q1 + ([':'] + (q2 + ([','] + (q3 + ([':'] + (q4 + (after + "}"))))))))
  {
  }

  /** A join of at least two pieces starts with the first, the separator and the second. */
  lemma JoinFirstTwo(ms: seq<string>, sep: char)
    requires |ms| >= 2
    ensures Strings.Join(ms, sep) == ms[0] + [sep] + ms[1] + (if |ms| == 2 then "" else [sep] + Strings.Join(ms[2..], sep))
  {
    assert ms[1..][1..] == ms[2..];
  }

  /** The first two members of an object text whose first two properties are present. */
  lemma MembersFirstTwo(keys: seq<string>, parts: seq<Json>)
    requires |keys| == |parts| >= 2 && parts[0].Text? && parts[1].Text?
    ensures Members(keys, parts)
         == [Quote(keys[0]) + ":" + parts[0].s, Quote(keys[1]) + ":" + parts[1].s] + Members(keys[2..], parts[2..])
  {
    var x, y := Quote(keys[0]) + ":" + parts[0].s, Quote(keys[1]) + ":" + parts[1].s;
    var rest := Members(keys[2..], parts[2..]);
    assert keys[1..][1..] == keys[2..] && parts[1..][1..] == parts[2..];
    assert Members(keys[1..], parts[1..]) == [y] + rest;
    assert Members(keys, parts) == [x] + ([y] + rest);
    assert [x] + ([y] + rest) == [x, y] + rest;
  }

  /** An object text whose first two members are strings reads them back. */
  lemma ObjectTextHead(keys: seq<string>, parts: seq<Json>, t: string, m: string)
    requires |keys| == |parts| >= 2
    requires parts[0] == Text(Quote(t)) && parts[1] == Text(Quote(m))
    requires ObjectText(keys, parts).Text?
    ensures ParseHead(ObjectText(keys, parts).s) == Some((Member(keys[0], t), Member(keys[1], m)))
  {
    var ms := Members(keys, parts);
    var a, b := Quote(keys[0]) + ":" + Quote(t), Quote(keys[1]) + ":" + Quote(m);
    assert ms == [a, b] + Members(keys[2..], parts[2..]) by {
      MembersFirstTwo(keys, parts);
    }
    var after := if |ms| == 2 then "" else [','] + Strings.Join(ms[2..], ',');
    assert Strings.Join(ms, ',') == a + [','] + b + after by {
      JoinFirstTwo(ms, ',');
    }
    var text := ObjectText(keys, parts).s;
    assert text == "{" + (a + [','] + b + after) + "}";
    Regroup(Quote(keys[0]), Quote(t), Quote(keys[1]), Quote(m), after);
    ParseHeadOf(keys[0], t, keys[1], m, after + "}");
  }

  /** An object text whose first two properties are the errorType and errorMessage strings reads them back. */
  lemma PropsHead(own: seq<Prop>, parts: seq<Json>, t: string, m: string)
    requires |own| == |parts| >= 2
    requires own[0] == Prop(ErrorTypeName, Str(t)) && own[1] == Prop(ErrorMessageName, Str(m))
    requires parts[0] == Stringify(own[0].val) && parts[1] == Stringify(own[1].val)
    requires ObjectText(Keys(own), parts).Text?
    ensures ParseHead(ObjectText(Keys(own), parts).s) == Some(TypeAndMessage(t, m))
  {
    ObjectTextHead(Keys(own), parts, t, m);
  }

  /** The JSON of a plain object that starts with errorType and errorMessage strings reads them back. */
  lemma PlainHead(own: seq<Prop>, t: string, m: string)
    requires |own| >= 2 && own[0] == Prop(ErrorTypeName, Str(t)) && own[1] == Prop(ErrorMessageName, Str(m))
    requires !Stringify(PlainObject(own)).Throws?
    ensures Stringify(PlainObject(own)).Text? && ParseHead(Stringify(PlainObject(own)).s) == Some(TypeAndMessage(t, m))
  {
    var parts := seq(|own|, i requires 0 <= i < |own| => Stringify(own[i].val));
    assert Stringify(PlainObject(own)) == ObjectText(Keys(own), parts);
    PropsHead(own, parts, t, m);
  }

  /** The same for the replacer-driven JSON, which writes strings as JSON.stringify does. */
  lemma ReplacedPlainHead(own: seq<Prop>, t: string, m: string)
    requires |own| >= 2 && own[0] == Prop(ErrorTypeName, Str(t)) && own[1] == Prop(ErrorMessageName, Str(m))
    requires !StringifyReplaced(PlainObject(own)).Throws?
    ensures StringifyReplaced(PlainObject(own)).Text?
    ensures ParseHead(StringifyReplaced(PlainObject(own)).s) == Some(TypeAndMessage(t, m))
  {
    var parts := seq(|own|, i requires 0 <= i < |own| => StringifyReplaced(own[i].val));
    assert StringifyReplaced(PlainObject(own)) == ObjectText(Keys(own), parts);
    StringifyReplacedPrimitive(Str(t));
    StringifyReplacedPrimitive(Str(m));
    PropsHead(own, parts, t, m);
  }

  /** The JSON of a response with string type and message starts with those two strings. */
  lemma ResponseHead(r: RuntimeResponse)
    requires r.errorType.Str? && r.errorMessage.Str?
    ensures Stringify(ResponseValue(r)).Text?
    ensures ParseHead(Stringify(ResponseValue(r)).s) == Some(TypeAndMessage(r.errorType.s, r.errorMessage.s))
  {
    ResponseStringifyThrowsIff(r);
    PlainHead(ResponseValue(r).own, r.errorType.s, r.errorMessage.s);
  }

  /**
   * The replacer-driven JSON of an error with a string name and message starts
   * with them when no own key of the error is an array index (ECMAScript lists
   * those first; see ProjectionIndexFirst).
   */
  lemma ProjectedHead(v: Value, t: string, m: string)
    requires InstanceOfError(v)
    requires Get(v, "name") == Str(t) && Get(v, "message") == Str(m)
    requires NoArrayIndexKeys(v.own) && "errorType" !in Keys(v.own) && "errorMessage" !in Keys(v.own)
    requires !StringifyReplaced(v).Throws?
    ensures StringifyReplaced(v).Text? && ParseHead(StringifyReplaced(v).s) == Some(TypeAndMessage(t, m))
  {
    ProjectionFirstTwo(v);
    StringifyReplacedError(v);
    ReplacedPlainHead(WithEnumerableProperties(v).own, t, m);
  }

  /** Only a native error that isError rejects can have a response whose type or message is not a string. */
  lemma NamedErrorResponse(v: Value, t: string, m: string)
    requires !Nullish(v) && Get(v, "name") == Str(t) && Get(v, "message") == Str(m)
    ensures ToRuntimeResponse(v).errorType.Str? && ToRuntimeResponse(v).errorMessage.Str?
  {
  }

  /**
   * The diagnostic toFormatted writes for an error with a string name and
   * message begins, after the tab, with those two strings as errorType and
   * errorMessage, unless the error's own properties override them or have an
   * array-index key; when the
   * projection cannot be serialised, the head is that of the runtime response.
   */
  lemma FormattedHead(v: Value, t: string, m: string)
    requires InstanceOfError(v)
    requires Get(v, "name") == Str(t) && Get(v, "message") == Str(m)
    requires NoArrayIndexKeys(v.own) && "errorType" !in Keys(v.own) && "errorMessage" !in Keys(v.own)
    ensures ToRuntimeResponse(v).errorType.Str? && ToRuntimeResponse(v).errorMessage.Str?
    ensures ToFormatted(v).Some?
    ensures ParseHead(ToFormatted(v).value[1..])
         == if StringifyReplaced(v).Throws?
            then Some(TypeAndMessage(ToRuntimeResponse(v).errorType.s, ToRuntimeResponse(v).errorMessage.s))
            else Some(TypeAndMessage(t, m))
  {
    NamedErrorResponse(v, t, m);
    var primary := StringifyReplaced(v);
    if !primary.Throws? {
      ProjectedHead(v, t, m);
      assert ToFormatted(v) == Some("\t" + primary.s);
      assert ("\t" + primary.s)[1..] == primary.s;
    } else {
      var r := ToRuntimeResponse(v);
      ResponseHead(r);
      var fallback := Stringify(ResponseValue(r));
      assert ToFormatted(v) == Some("\t" + fallback.s);
      assert ("\t" + fallback.s)[1..] == fallback.s;
    }
  }

  /** A runtime error's response names its class and carries its message and stack lines. */
  lemma RuntimeErrorResponse(c: ErrorClass, message: string, frames: seq<string>)
    ensures var r := ToRuntimeResponse(RuntimeErrorValue(c, message, frames));
      && r.errorType == Str("Runtime." + ClassName(c))
      && r.errorMessage == Str(message)
      && r.trace == Strings.Split(V8Stack(ErrorName(c), message, frames), '\n')
  {
    var v := RuntimeErrorValue(c, message, frames);
    assert MessageOf(Str(message)) == Some(message);
    assert Keys([]) == [];
    assert V8Stack(ErrorName(c), message, frames) != "";
  }

  /** The projection of a runtime error names its class under errorType unless an own property overrides it. */
  lemma RuntimeErrorProjectedType(c: ErrorClass, reason: Value, own: seq<Prop>, frames: seq<string>)
    requires NewRuntimeError(c, reason, own, frames).Some? && DistinctKeys(own)
    requires "name" !in Keys(own) && "errorType" !in Keys(own)
    ensures Lookup(WithEnumerableProperties(NewRuntimeError(c, reason, own, frames).value).own, "errorType")
         == Some(Str(ErrorName(c)))
  {
    var v := NewRuntimeError(c, reason, own, frames).value;
    assert ProjectedProp(v, "errorType") == Some(Get(v, "name"));
    WithEnumerablePropertiesLookup(v, "errorType");
  }

  /** The projection of a runtime error keeps the value of each of its own properties other than `stack`. */
  lemma RuntimeErrorProjectedOwn(c: ErrorClass, reason: Value, own: seq<Prop>, frames: seq<string>, i: nat)
    requires NewRuntimeError(c, reason, own, frames).Some? && DistinctKeys(own)
    requires i < |own| && own[i].key != "stack"
    ensures Lookup(WithEnumerableProperties(NewRuntimeError(c, reason, own, frames).value).own, own[i].key)
         == Some(own[i].val)
  {
    var v := NewRuntimeError(c, reason, own, frames).value;
    assert own[i].key in Keys(own) by {
      assert Keys(own)[i] == own[i].key;
    }
    LookupDistinct(own, i);
    WithEnumerablePropertiesLookup(v, own[i].key);
  }

  /**
   * The formatted diagnostic of an unhandled rejection names its class and
   * carries the reason and the promise as properties.
   */
  lemma UnhandledRejectionProjection(reason: Value, promise: Value, frames: seq<string>)
    requires UnhandledRejectionValue(reason, promise, frames).Some?
    ensures var w := WithEnumerableProperties(UnhandledRejectionValue(reason, promise, frames).value);
      && Lookup(w.own, "errorType") == Some(Str(ErrorName(UnhandledPromiseRejection)))
      && Lookup(w.own, "reason") == Some(reason)
      && Lookup(w.own, "promise") == Some(promise)
  {
    var own := [Prop("reason", reason), Prop("promise", promise)];
    assert Keys(own) == ["reason", "promise"] && DistinctKeys(own);
    RuntimeErrorProjectedType(UnhandledPromiseRejection, reason, own, frames);
    RuntimeErrorProjectedOwn(UnhandledPromiseRejection, reason, own, frames, 0);
    RuntimeErrorProjectedOwn(UnhandledPromiseRejection, reason, own, frames, 1);
  }
}
