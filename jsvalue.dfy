/**
 * JavaScript values as the runtime client sees them: primitives, arrays
 * and objects. An object carries its own enumerable properties in the
 * order ECMAScript lists own keys (array indices ascending, then the other
 * keys in creation order), the properties a read can see that are not own and
 * enumerable (prototype members such as an error's `name`, non-enumerable
 * own ones such as its `message` and `stack`), whether it is callable,
 * whether the engine made it as a native error, which error prototype (if
 * any) is on its chain, and what calling its `toString()` gives (None when
 * that call throws).
 */
module JsValue {
  import opened Wrappers
  import Strings

  /** The error prototype on an object's chain: decides `instanceof Error` and `instanceof SyntaxError`. */
  datatype Proto = OrdinaryProto | ErrorProto | SyntaxErrorProto

  datatype Prop = Prop(key: string, val: Value)

  datatype Value =
    | Undefined
    | Null
    | Bool(b: bool)
    | Num(n: int)
    | BigInt(i: int)
    | Str(s: string)
    | Arr(elems: seq<Value>)
    | Obj(own: seq<Prop>, hidden: seq<Prop>, callable: bool, nativeError: bool, proto: Proto, toStr: Option<string>)

  predicate Nullish(v: Value)
  {
    v.Undefined? || v.Null?
  }

  /** JavaScript truthiness: `false`, `0`, `0n`, `""`, `null` and `undefined` are falsy. */
  predicate Truthy(v: Value)
  {
    match v
    case Undefined => false
    case Null => false
    case Bool(b) => b
    case Num(n) => n != 0
    case BigInt(i) => i != 0
    case Str(s) => s != ""
    case Arr(_) => true
    case Obj(_, _, _, _, _, _) => true
  }

  /** The `typeof` tag. */
  function TypeOf(v: Value): string
  {
    match v
    case Undefined => "undefined"
    case Null => "object"
    case Bool(_) => "boolean"
    case Num(_) => "number"
    case BigInt(_) => "bigint"
    case Str(_) => "string"
    case Arr(_) => "object"
    case Obj(_, _, callable, _, _, _) => if callable then "function" else "object"
  }

  /** `v instanceof Error`. */
  predicate InstanceOfError(v: Value)
  {
    v.Obj? && v.proto != OrdinaryProto
  }

  /** `v instanceof SyntaxError`. */
  predicate InstanceOfSyntaxError(v: Value)
  {
    v.Obj? && v.proto == SyntaxErrorProto
  }

  /** `util.types.isNativeError(v)`. */
  predicate IsNativeError(v: Value)
  {
    v.Obj? && v.nativeError
  }

  function Keys(props: seq<Prop>): seq<string>
  {
    seq(|props|, i requires 0 <= i < |props| => props[i].key)
  }

  /** The value of the first property named `key`, if any. */
  function Lookup(props: seq<Prop>, key: string): (r: Option<Value>)
    ensures r.None? <==> key !in Keys(props)
    ensures r.Some? ==> Prop(key, r.value) in props
  {
    if props == [] then None
    else if props[0].key == key then
      assert Keys(props)[0] == key;
      Some(props[0].val)
    else
      assert Keys(props) == [props[0].key] + Keys(props[1..]);
      Lookup(props[1..], key)
  }

  /**
   * The number a canonical decimal index key names: digits without a leading
   * zero (CanonicalNumericIndexString restricted to non-negative integers).
   */
  function CanonicalIndex(key: string): (r: Option<nat>)
    ensures r.Some? ==> Strings.NatToString(r.value) == key
  {
    if key != [] && Strings.AllDigits(key) && Strings.NatToString(Strings.DigitsValue(key)) == key
    then Some(Strings.DigitsValue(key))
    else None
  }

  /** Every number's decimal rendering is the canonical index key of that number. */
  lemma CanonicalIndexOf(i: nat)
    ensures CanonicalIndex(Strings.NatToString(i)) == Some(i)
  {
    Strings.NatToStringValue(i);
  }

  /** An array index in the sense of ECMAScript: a canonical index below 2^32 - 1. */
  predicate IsArrayIndex(key: string)
  {
    CanonicalIndex(key).Some? && CanonicalIndex(key).value < 0xFFFF_FFFF
  }

  /**
   * The property read `v[key]` on a value that is not null or undefined (reading
   * a property of those throws, and the source never does). Own enumerable
   * properties shadow the others. An array reads its elements at canonical
   * index keys and its length at `length`; a string reads its characters and
   * its length the same way. Members inherited from a prototype (`toString`,
   * `hasOwnProperty`, …) are not modelled and read as undefined.
   */
  function Get(v: Value, key: string): (r: Value)
    requires !Nullish(v)
    ensures v.Obj? && Lookup(v.own, key).Some? ==> r == Lookup(v.own, key).value
    ensures !v.Obj? && !v.Arr? && !v.Str? ==> r == Undefined
  {
    match v
    case Obj(own, hidden, _, _, _, _) =>
      if Lookup(own, key).Some? then Lookup(own, key).value
      else if Lookup(hidden, key).Some? then Lookup(hidden, key).value
      else Undefined
    case Arr(elems) =>
      if key == "length" then Num(|elems|)
      else if CanonicalIndex(key).Some? && CanonicalIndex(key).value < |elems| then elems[CanonicalIndex(key).value]
      else Undefined
    case Str(s) =>
      if key == "length" then Num(|s|)
      else if CanonicalIndex(key).Some? && CanonicalIndex(key).value < |s| then Str([s[CanonicalIndex(key).value]])
      else Undefined
    case _ => Undefined
  }

  /** On an array or a string, a key other than `length` and the canonical indices reads as undefined. */
  lemma GetOtherKey(v: Value, key: string)
    requires (v.Arr? || v.Str?) && key != "length"
    requires forall i: nat :: Strings.NatToString(i) != key
    ensures Get(v, key) == Undefined
  {
  }

  /** `a[i]` on an array is its element and `a.length` its length. */
  lemma GetElement(elems: seq<Value>, i: nat)
    requires i < |elems|
    ensures Get(Arr(elems), Strings.NatToString(i)) == elems[i]
    ensures Get(Arr(elems), "length") == Num(|elems|)
  {
    CanonicalIndexOf(i);
  }

  /** `s[i]` on a string is its character as a one-character string and `s.length` its length. */
  lemma GetCharacter(s: string, i: nat)
    requires i < |s|
    ensures Get(Str(s), Strings.NatToString(i)) == Str([s[i]])
    ensures Get(Str(s), "length") == Num(|s|)
  {
    CanonicalIndexOf(i);
  }

  /** The ToString(v) operation (as in `String(v)`); None when it throws. */
  function ToString(v: Value): Option<string>
  {
    match v
    case Undefined => Some("undefined")
    case Null => Some("null")
    case Bool(b) => Some(if b then "true" else "false")
    case Num(n) => Some(Strings.IntToString(n))
    case BigInt(i) => Some(Strings.IntToString(i))
    case Str(s) => Some(s)
    case Arr(elems) =>
      // Array.prototype.toString joins the elements with ',' and renders null and undefined as "".
      var parts := seq(|elems|, i requires 0 <= i < |elems| =>
                         if Nullish(elems[i]) then Some("") else ToString(elems[i]));
      if forall i :: 0 <= i < |parts| ==> parts[i].Some? then
        Some(Strings.Join(seq(|parts|, i requires 0 <= i < |parts| && parts[i].Some? => parts[i].value), ','))
      else None
    case Obj(_, _, _, _, _, toStr) => toStr
  }

  /** The method call `v.toString()`, which throws on null and undefined. */
  function CallToString(v: Value): Option<string>
  {
    if Nullish(v) then None else ToString(v)
  }

  /** Objects with an own enumerable property of every key once. */
  predicate DistinctKeys(props: seq<Prop>)
  {
    forall i, j :: 0 <= i < j < |props| ==> props[i].key != props[j].key
  }

  /** `k` is an array index smaller than the array index `key`. */
  predicate IndexBefore(k: string, key: string)
  {
    IsArrayIndex(k) && IsArrayIndex(key) && CanonicalIndex(k).value < CanonicalIndex(key).value
  }

  /** How many leading properties are array indices smaller than `key`. */
  function LeadingBefore(props: seq<Prop>, key: string): (p: nat)
    ensures p <= |props|
    ensures forall j :: 0 <= j < p ==> IndexBefore(props[j].key, key)
    ensures p < |props| ==> !IndexBefore(props[p].key, key)
  {
    if props == [] || !IndexBefore(props[0].key, key) then 0
    else
      var p := 1 + LeadingBefore(props[1..], key);
      assert forall j :: 1 <= j < p ==> props[j] == props[1..][j - 1];
      p
  }

  /**
   * Where a new own property goes in the order ECMAScript lists own keys
   * (array indices first, ascending, then the other keys in creation order):
   * an array index after the smaller array indices, any other key at the end.
   */
  function InsertPos(props: seq<Prop>, key: string): (p: nat)
    ensures p <= |props|
    ensures !IsArrayIndex(key) ==> p == |props|
    ensures IsArrayIndex(key) ==> forall j :: 0 <= j < p ==> IndexBefore(props[j].key, key)
    ensures IsArrayIndex(key) && p < |props| ==> !IndexBefore(props[p].key, key)
  {
    if IsArrayIndex(key) then LeadingBefore(props, key) else |props|
  }

  /** Reading a concatenation finds the first part's property before the second's. */
  lemma {:induction false} LookupConcat(a: seq<Prop>, b: seq<Prop>, k: string)
    ensures Lookup(a + b, k) == if k in Keys(a) then Lookup(a, k) else Lookup(b, k)
  {
    if a != [] {
      assert (a + b)[1..] == a[1..] + b;
      assert Keys(a) == [a[0].key] + Keys(a[1..]);
      LookupConcat(a[1..], b, k);
    } else {
      assert a + b == b;
    }
  }

  /** A new value for an existing key, in the key's place. */
  function Replace(props: seq<Prop>, key: string, val: Value): (r: seq<Prop>)
    requires key in Keys(props)
    ensures |r| == |props|
    ensures forall i :: 0 <= i < |props| ==> r[i].key == props[i].key
    ensures forall i :: 0 <= i < |props| && props[i].key != key ==> r[i] == props[i]
    ensures forall p :: p in r ==> p in props || p == Prop(key, val)
    ensures Lookup(r, key) == Some(val)
    ensures forall k :: k != key ==> Lookup(r, k) == Lookup(props, k)
  {
    assert Keys(props) == [props[0].key] + Keys(props[1..]);
    if props[0].key == key then [Prop(key, val)] + props[1..]
    else [props[0]] + Replace(props[1..], key, val)
  }

  /**
   * `target[key] = val` on an ordinary object: an existing property keeps its
   * place and takes the new value; a new one takes its place in the order
   * of own keys (see InsertPos).
   */
  function SetProp(props: seq<Prop>, key: string, val: Value): (r: seq<Prop>)
    ensures |r| == if key in Keys(props) then |props| else |props| + 1
    ensures key in Keys(props) || !IsArrayIndex(key) ==>
      forall i :: 0 <= i < |props| ==> r[i].key == props[i].key && (props[i].key != key ==> r[i] == props[i])
    ensures key !in Keys(props) ==>
      var p := InsertPos(props, key); r == props[..p] + [Prop(key, val)] + props[p..]
    ensures forall p :: p in r ==> p in props || p == Prop(key, val)
    ensures Lookup(r, key) == Some(val)
    ensures forall k :: k != key ==> Lookup(r, k) == Lookup(props, k)
    ensures forall k :: k in Keys(r) <==> k in Keys(props) || k == key
  {
    if key in Keys(props) then
      var r := Replace(props, key, val);
      assert Keys(r) == Keys(props);
      r
    else
      var p := InsertPos(props, key);
      var r := props[..p] + ([Prop(key, val)] + props[p..]);
      assert props == props[..p] + props[p..];
      assert key !in Keys(props[..p]) by {
        assert Keys(props[..p]) == Keys(props)[..p];
      }
      forall k ensures Lookup(r, k) == if k == key then Some(val) else Lookup(props, k)
        ensures k in Keys(r) <==> k in Keys(props) || k == key
      {
        LookupConcat(props[..p], [Prop(key, val)] + props[p..], k);
        LookupConcat(props[..p], props[p..], k);
      }
      r
  }

  /** No own key is an array index. */
  predicate NoArrayIndexKeys(props: seq<Prop>)
  {
    forall k :: k in Keys(props) ==> !IsArrayIndex(k)
  }

  /**
   * `Object.assign(target, source)`: the source's own enumerable properties
   * are set on the target in order. With no array index among the source's
   * keys, the target's properties keep their places.
   */
  function Assign(target: seq<Prop>, source: seq<Prop>): (r: seq<Prop>)
    ensures |r| >= |target|
    ensures NoArrayIndexKeys(source) ==> forall i :: 0 <= i < |target| ==> r[i].key == target[i].key
    ensures NoArrayIndexKeys(source) ==>
      forall i :: 0 <= i < |target| && target[i].key !in Keys(source) ==> r[i] == target[i]
    ensures forall p :: p in r ==> p in target || p in source
    ensures forall k :: k !in Keys(source) ==> Lookup(r, k) == Lookup(target, k)
    ensures forall k :: k in Keys(r) <==> k in Keys(target) || k in Keys(source)
    decreases |source|
  {
    if source == [] then target
    else
      assert Keys(source) == [source[0].key] + Keys(source[1..]);
      Assign(SetProp(target, source[0].key, source[0].val), source[1..])
  }

  /** The first own key is an array index. */
  predicate IndexFirst(props: seq<Prop>)
  {
    |props| > 0 && IsArrayIndex(props[0].key)
  }

  /** Setting a property never moves a leading array index from the front. */
  lemma SetPropKeepsIndexFirst(props: seq<Prop>, key: string, val: Value)
    requires IndexFirst(props)
    ensures IndexFirst(SetProp(props, key, val))
  {
    var r := SetProp(props, key, val);
    if key !in Keys(props) && IsArrayIndex(key) {
      var p := InsertPos(props, key);
      if p > 0 {
        assert r[0] == props[0];
      } else {
        assert r[0] == Prop(key, val);
      }
    }
  }

  /** A new array-index key is listed first when no smaller index precedes it. */
  lemma SetPropIndexFirst(props: seq<Prop>, key: string, val: Value)
    requires IsArrayIndex(key) && key !in Keys(props)
    ensures IndexFirst(SetProp(props, key, val))
  {
    var r := SetProp(props, key, val);
    var p := InsertPos(props, key);
    if p > 0 {
      assert r[0] == props[0];
    } else {
      assert r[0] == Prop(key, val);
    }
  }

  /** `Object.assign` keeps a leading array index at the front. */
  lemma {:induction false} AssignKeepsIndexFirst(target: seq<Prop>, source: seq<Prop>)
    requires IndexFirst(target)
    ensures IndexFirst(Assign(target, source))
    decreases |source|
  {
    if source != [] {
      SetPropKeepsIndexFirst(target, source[0].key, source[0].val);
      AssignKeepsIndexFirst(SetProp(target, source[0].key, source[0].val), source[1..]);
    }
  }

  /**
   * Assigning a source with an array-index key onto a target without one
   * lists an array index first, whatever the target's keys were.
   */
  lemma {:induction false} AssignIndexFirst(target: seq<Prop>, source: seq<Prop>)
    requires NoArrayIndexKeys(target) && !NoArrayIndexKeys(source)
    ensures IndexFirst(Assign(target, source))
    decreases |source|
  {
    assert Keys(source) == [source[0].key] + Keys(source[1..]);
    var t' := SetProp(target, source[0].key, source[0].val);
    if IsArrayIndex(source[0].key) {
      SetPropIndexFirst(target, source[0].key, source[0].val);
      AssignKeepsIndexFirst(t', source[1..]);
    } else {
      AssignIndexFirst(t', source[1..]);
    }
  }

  /** After `Object.assign`, a key the source has reads as the source's value. */
  lemma {:induction false} AssignLookup(target: seq<Prop>, source: seq<Prop>, k: string)
    requires DistinctKeys(source) && k in Keys(source)
    ensures Lookup(Assign(target, source), k) == Lookup(source, k)
    decreases |source|
  {
    assert Keys(source) == [source[0].key] + Keys(source[1..]);
    var t' := SetProp(target, source[0].key, source[0].val);
    if source[0].key == k {
      assert k !in Keys(source[1..]) by {
        forall i | 0 <= i < |source[1..]| ensures source[1..][i].key != k {
          assert source[1..][i] == source[i + 1];
        }
      }
    } else {
      assert DistinctKeys(source[1..]) by {
        forall i, j | 0 <= i < j < |source[1..]| ensures source[1..][i].key != source[1..][j].key {
          assert source[1..][i] == source[i + 1] && source[1..][j] == source[j + 1];
        }
      }
      AssignLookup(t', source[1..], k);
    }
  }

  /** In an object whose keys are distinct, each property is the one its key finds. */
  lemma {:induction false} LookupDistinct(props: seq<Prop>, i: nat)
    requires DistinctKeys(props) && i < |props|
    ensures Lookup(props, props[i].key) == Some(props[i].val)
  {
    if i > 0 {
      assert props[1..][i - 1] == props[i];
      assert DistinctKeys(props[1..]) by {
        forall a, b | 0 <= a < b < |props[1..]| ensures props[1..][a].key != props[1..][b].key {
          assert props[1..][a] == props[a + 1] && props[1..][b] == props[b + 1];
        }
      }
      LookupDistinct(props[1..], i - 1);
    }
  }

  /** The largest entry (0 when there is none). */
  function MaxOf(s: seq<nat>): (m: nat)
    ensures forall i :: 0 <= i < |s| ==> s[i] <= m
    ensures s == [] ==> m == 0
    ensures s != [] ==> m in s
  {
    if s == [] then 0
    else
      var rest := MaxOf(s[1..]);
      assert forall i :: 1 <= i < |s| ==> s[i] == s[1..][i - 1];
      if s[0] > rest then s[0] else rest
  }

  /** How deeply objects nest in a value; an array is as deep as its deepest element. */
  function Depth(v: Value): nat
  {
    match v
    case Arr(elems) => MaxOf(seq(|elems|, i requires 0 <= i < |elems| => Depth(elems[i])))
    case Obj(own, hidden, _, _, _, _) =>
      1 + MaxOf(seq(|own|, i requires 0 <= i < |own| => Depth(own[i].val))
                + seq(|hidden|, i requires 0 <= i < |hidden| => Depth(hidden[i].val)))
    case _ => 0
  }

  /** Every property value of an object is shallower than the object. */
  lemma PropShallower(v: Value, p: Prop)
    requires v.Obj? && (p in v.own || p in v.hidden)
    ensures Depth(p.val) < Depth(v)
  {
    var a := seq(|v.own|, i requires 0 <= i < |v.own| => Depth(v.own[i].val));
    var b := seq(|v.hidden|, i requires 0 <= i < |v.hidden| => Depth(v.hidden[i].val));
    if p in v.own {
      var i :| 0 <= i < |v.own| && v.own[i] == p;
      assert (a + b)[i] == Depth(p.val);
    } else {
      var i :| 0 <= i < |v.hidden| && v.hidden[i] == p;
      assert (a + b)[|a| + i] == Depth(p.val);
    }
  }

  /** A property read on an object gives something shallower than the object. */
  lemma GetShallower(v: Value, key: string)
    requires v.Obj?
    ensures Depth(Get(v, key)) < Depth(v)
  {
    if Lookup(v.own, key).Some? {
      PropShallower(v, Prop(key, Lookup(v.own, key).value));
    } else if Lookup(v.hidden, key).Some? {
      PropShallower(v, Prop(key, Lookup(v.hidden, key).value));
    }
  }
}
