/**
 * The binding registry and the parameter-function expander of colorql.ts,
 * as pure transitions of a `State` value. The class `Engine` (engine.dfy)
 * performs the same transitions in place and is proved against these.
 *
 * The source keys its `WeakMap` by a fresh `{color}` object on every call,
 * so no lookup or deletion can ever find an entry (see `WeakKeyed`). The
 * model keys the registry by the color string, which is what the source
 * evidently intends.
 */
module Registry {
  import opened Wrappers
  import opened Codec
  import opened Js

  /** The errors the source returns (`return Error(...)`) or throws. */
  datatype Error =
    | RValueAlreadyRegistered       // "rValue already registered"
    | UseRemoveParamFn              // "Binding is a paramFn rValue. Use removeParamFn"
    | NoBinding(color: string)      // "No binding for " + color
    | NotAFunction(value: JsValue)  // the TypeError of `fn.bind` on a non-function

  /** Number of (g, b) pairs of one R channel; pair number i is (i / 256, i % 256). */
  const BAND_SIZE: int := 0x10000

  function BandKey(r: Byte, i: int): string
    requires 0 <= i < BAND_SIZE
  {
    RgbToHex(Rgb(r, i / 256, i % 256))
  }

  function Adapter(fn: nat, i: int): JsValue
    requires 0 <= i < BAND_SIZE
  {
    Function(ParamAdapter(fn, i / 256, i % 256))
  }

  /** The entries `createParamFn(r, fn)` has written after its first n (g, b) pairs, in loop order. */
  function Band(r: Byte, fn: nat, n: int): map<string, JsValue>
    requires 0 <= n <= BAND_SIZE
  {
    if n == 0 then map[] else Band(r, fn, n - 1)[BandKey(r, n - 1) := Adapter(fn, n - 1)]
  }

  /** The keys `removeParamFn(r)` has deleted after its first n (g, b) pairs. */
  function BandKeys(r: Byte, n: int): set<string>
    requires 0 <= n <= BAND_SIZE
  {
    if n == 0 then {} else BandKeys(r, n - 1) + {BandKey(r, n - 1)}
  }

  /** `Array.prototype.indexOf`. */
  function IndexOf(s: seq<Byte>, x: Byte): (k: int)
    ensures -1 <= k < |s|
    ensures k == -1 <==> x !in s
    ensures k >= 0 ==> s[k] == x && forall j :: 0 <= j < k ==> s[j] != x
  {
    if s == [] then -1
    else if s[0] == x then 0
    else
      var k := IndexOf(s[1..], x);
      if k == -1 then -1 else k + 1
  }

  /** `if (s.indexOf(x) > -1) s.splice(s.indexOf(x), 1)`. */
  function RemoveFirst(s: seq<Byte>, x: Byte): seq<Byte> {
    var k := IndexOf(s, x);
    if k > -1 then s[..k] + s[k + 1..] else s
  }

  /** `getBinding`: a missing entry and a falsy stored value both throw. */
  function GetBinding(bindings: map<string, JsValue>, color: string): Result<JsValue, Error> {
    if color in bindings && Truthy(bindings[color]) then Success(bindings[color])
    else Failure(NoBinding(color))
  }

  datatype Update = Update(state: State, err: Option<Error>)

  /** `colorBindings` and `rValues`. */
  datatype State = State(bindings: map<string, JsValue>, rValues: seq<Byte>) {

    /** `createParamFn` never adds a value twice. */
    ghost predicate Valid() {
      forall i, j :: 0 <= i < j < |rValues| ==> rValues[i] != rValues[j]
    }

    /** `checkRValue`: the R channel of `color` is reserved. */
    predicate CheckRValue(color: string) {
      Decode(color).Some? && Decode(color).value.r in rValues
    }

    function BindValue(color: string, value: JsValue): Update {
      if !CheckRValue(color) then Update(this.(bindings := bindings[color := value]), None)
      else Update(this, Some(RValueAlreadyRegistered))
    }

    /** `bindFn` stores the function without consulting `rValues`. */
    function BindFn(color: string, fn: nat): State {
      this.(bindings := bindings[color := Function(UserFn(fn))])
    }

    function RemoveBinding(color: string): Update {
      if !CheckRValue(color) then Update(this.(bindings := bindings - {color}), None)
      else Update(this, Some(UseRemoveParamFn))
    }

    /** `createParamFn`, with the reservation of `r` recorded as its comments intend. */
    function CreateParamFn(r: Byte, fn: nat): Update {
      if IndexOf(rValues, r) == -1 then
        Update(State(bindings + Band(r, fn, BAND_SIZE), rValues + [r]), None)
      else Update(this, Some(RValueAlreadyRegistered))
    }

    /** `createParamFn` as written: the band is installed but `r` is never pushed onto `rValues`. */
    function CreateParamFnAsWritten(r: Byte, fn: nat): Update {
      if IndexOf(rValues, r) == -1 then
        Update(this.(bindings := bindings + Band(r, fn, BAND_SIZE)), None)
      else Update(this, Some(RValueAlreadyRegistered))
    }

    function RemoveParamFn(r: Byte): State {
      State(bindings - BandKeys(r, BAND_SIZE), RemoveFirst(rValues, r))
    }
  }

  // ----- the band -----

  /** The code of pair i decodes to channels (r, i / 256, i % 256); so distinct pairs have distinct codes. */
  lemma BandKeyDecodes(r: Byte, i: int)
    requires 0 <= i < BAND_SIZE
    ensures Decode(BandKey(r, i)) == Some(Rgb(r, i / 256, i % 256))
  {
    DecodeEncode(Rgb(r, i / 256, i % 256));
  }

  lemma BandKeyInjective(r: Byte, i: int, j: int)
    requires 0 <= i < j < BAND_SIZE
    ensures BandKey(r, i) != BandKey(r, j)
  {
    BandKeyDecodes(r, i);
    BandKeyDecodes(r, j);
    assert i == (i / 256) * 256 + i % 256 && j == (j / 256) * 256 + j % 256;
  }

  /** Pair i of the first n is in the band, holding its own adapter. */
  lemma BandAtIndex(r: Byte, fn: nat, n: int, i: int)
    requires 0 <= i < n <= BAND_SIZE
    ensures BandKey(r, i) in Band(r, fn, n) && Band(r, fn, n)[BandKey(r, i)] == Adapter(fn, i)
    ensures BandKey(r, i) in BandKeys(r, n)
  {
    BandValueAt(r, fn, n, i);
    BandKeyAt(r, n, i);
  }

  lemma {:induction false} BandValueAt(r: Byte, fn: nat, n: int, i: int)
    requires 0 <= i < n <= BAND_SIZE
    ensures BandKey(r, i) in Band(r, fn, n) && Band(r, fn, n)[BandKey(r, i)] == Adapter(fn, i)
    decreases n
  {
    var m := Band(r, fn, n - 1);
    var k, last := BandKey(r, i), BandKey(r, n - 1);
    assert Band(r, fn, n) == m[last := Adapter(fn, n - 1)];
    if i < n - 1 {
      BandValueAt(r, fn, n - 1, i);
      BandKeyInjective(r, i, n - 1);
      assert k in m && m[k] == Adapter(fn, i) && k != last;
    }
  }

  lemma {:induction false} BandKeyAt(r: Byte, n: int, i: int)
    requires 0 <= i < n <= BAND_SIZE
    ensures BandKey(r, i) in BandKeys(r, n)
    decreases n
  {
    assert BandKeys(r, n) == BandKeys(r, n - 1) + {BandKey(r, n - 1)};
    if i < n - 1 {
      BandKeyAt(r, n - 1, i);
    }
  }

  lemma {:induction false} BandIndexOf(r: Byte, fn: nat, n: int, k: string)
    requires 0 <= n <= BAND_SIZE
    requires k in Band(r, fn, n) || k in BandKeys(r, n)
    ensures exists i :: 0 <= i < n && BandKey(r, i) == k
    decreases n
  {
    if n > 0 && k != BandKey(r, n - 1) {
      BandIndexOf(r, fn, n - 1, k);
    }
  }

  /** After the whole band: the code of (r, g, b) holds the adapter calling `fn(g, b)`. */
  lemma BandAt(r: Byte, fn: nat, g: Byte, b: Byte)
    ensures RgbToHex(Rgb(r, g, b)) in Band(r, fn, BAND_SIZE)
    ensures Band(r, fn, BAND_SIZE)[RgbToHex(Rgb(r, g, b))] == Function(ParamAdapter(fn, g, b))
    ensures RgbToHex(Rgb(r, g, b)) in BandKeys(r, BAND_SIZE)
  {
    var i := g * 256 + b;
    assert i / 256 == g && i % 256 == b;
    BandAtIndex(r, fn, BAND_SIZE, i);
  }

  /**
   * The band of r is exactly the canonical (lower-case) codes whose R channel
   * is r: the same code spelled with upper-case letters is not in it.
   */
  lemma BandKeysExactly(r: Byte, fn: nat, k: string)
    ensures k in BandKeys(r, BAND_SIZE) <==> Decode(k).Some? && Decode(k).value.r == r && RgbToHex(Decode(k).value) == k
    ensures k in Band(r, fn, BAND_SIZE) <==> k in BandKeys(r, BAND_SIZE)
  {
    if k in BandKeys(r, BAND_SIZE) {
      BandIndexOf(r, fn, BAND_SIZE, k);
      var i :| 0 <= i < BAND_SIZE && BandKey(r, i) == k;
      BandKeyDecodes(r, i);
      BandAtIndex(r, fn, BAND_SIZE, i);
    }
    if Decode(k).Some? && Decode(k).value.r == r && RgbToHex(Decode(k).value) == k {
      BandAt(r, fn, Decode(k).value.g, Decode(k).value.b);
    }
    if k in Band(r, fn, BAND_SIZE) {
      BandIndexOf(r, fn, BAND_SIZE, k);
      var i :| 0 <= i < BAND_SIZE && BandKey(r, i) == k;
      BandAtIndex(r, fn, BAND_SIZE, i);
    }
  }

  // ----- the plain registry operations -----

  /**
   * `bindValue` then `getBinding`: a reserved color is refused and nothing
   * changes; otherwise the color now yields the new value (or throws, if the
   * value is falsy) and every other color yields what it did before.
   */
  lemma GetAfterBindValue(s: State, color: string, value: JsValue, probe: string)
    ensures s.CheckRValue(color) ==> s.BindValue(color, value) == Update(s, Some(RValueAlreadyRegistered))
    ensures !s.CheckRValue(color) ==>
      var t := s.BindValue(color, value);
      && t.err == None && t.state.rValues == s.rValues
      && color in t.state.bindings && t.state.bindings[color] == value
      && t.state.bindings - {color} == s.bindings - {color}
    ensures GetBinding(s.BindValue(color, value).state.bindings, probe) ==
      if probe == color && !s.CheckRValue(color) then
        (if Truthy(value) then Success(value) else Failure(NoBinding(color)))
      else GetBinding(s.bindings, probe)
  {
  }

  /** Last write wins: a second `bindValue` of the same color replaces the first entirely. */
  lemma BindValueOverwrites(s: State, color: string, first: JsValue, second: JsValue)
    ensures s.BindValue(color, first).state.BindValue(color, second) == s.BindValue(color, second)
  {
    if !s.CheckRValue(color) {
      assert s.bindings[color := first][color := second] == s.bindings[color := second];
    }
  }

  /**
   * `removeBinding`: a reserved color is refused and nothing changes;
   * otherwise exactly that color is gone, and removing an absent color
   * changes nothing.
   */
  lemma RemoveBindingEffect(s: State, color: string)
    ensures s.CheckRValue(color) ==> s.RemoveBinding(color) == Update(s, Some(UseRemoveParamFn))
    ensures !s.CheckRValue(color) ==>
      var t := s.RemoveBinding(color);
      && t.err == None && t.state.rValues == s.rValues
      && color !in t.state.bindings
      && t.state.bindings - {color} == s.bindings - {color}
    ensures !s.CheckRValue(color) && color !in s.bindings ==> s.RemoveBinding(color) == Update(s, None)
  {
    if !s.CheckRValue(color) && color !in s.bindings {
      assert s.bindings - {color} == s.bindings;
    }
  }

  /** `removeBinding` undoes a `bindValue` of a color that had no binding. */
  lemma RemoveUndoesBind(s: State, color: string, value: JsValue)
    requires !s.CheckRValue(color) && color !in s.bindings
    ensures s.BindValue(color, value).state.RemoveBinding(color) == Update(s, None)
  {
    assert s.bindings[color := value] - {color} == s.bindings;
  }

  /** `bindFn` does not consult the reserved channels: it can replace an adapter of a band. */
  lemma BindFnIgnoresReservation(s: State, r: Byte, fn: nat, g: Byte, b: Byte, user: nat)
    requires r !in s.rValues
    ensures var t := s.CreateParamFn(r, fn).state;
      && t.CheckRValue(RgbToHex(Rgb(r, g, b)))
      && GetBinding(t.BindFn(RgbToHex(Rgb(r, g, b)), user).bindings, RgbToHex(Rgb(r, g, b))) == Success(Function(UserFn(user)))
  {
    DecodeEncode(Rgb(r, g, b));
  }

  // ----- the parameter-function expander -----

  /** `createParamFn` of a free channel: every code of the band yields the adapter calling `fn(g, b)`. */
  lemma CreateParamFnInstalls(s: State, r: Byte, fn: nat, g: Byte, b: Byte)
    requires r !in s.rValues
    ensures var u := s.CreateParamFn(r, fn);
      && u.err == None && u.state.rValues == s.rValues + [r]
      && GetBinding(u.state.bindings, RgbToHex(Rgb(r, g, b))) == Success(Function(ParamAdapter(fn, g, b)))
  {
    BandAt(r, fn, g, b);
  }

  /** `createParamFn` of a reserved channel is refused and changes nothing. */
  lemma CreateParamFnDuplicate(s: State, r: Byte, fn: nat)
    requires r in s.rValues
    ensures s.CreateParamFn(r, fn) == Update(s, Some(RValueAlreadyRegistered))
  {
  }

  /**
   * `createParamFn` leaves every key outside the band alone: codes of other
   * channels, and codes of channel r spelled with upper-case digits.
   */
  lemma CreateParamFnKeepsOthers(s: State, r: Byte, fn: nat, k: string)
    requires k !in BandKeys(r, BAND_SIZE)
    ensures var t := s.CreateParamFn(r, fn).state;
      && (k in t.bindings <==> k in s.bindings)
      && (k in s.bindings ==> t.bindings[k] == s.bindings[k])
  {
    BandKeysExactly(r, fn, k);
  }

  /**
   * Once `r` is reserved, no plain operation touches its band: `bindValue` and
   * `removeBinding` of any code with R channel r are refused, and so is a
   * second `createParamFn(r, ...)`.
   */
  lemma ReservationExclusive(s: State, r: Byte, fn: nat, color: string, value: JsValue, other: nat)
    requires r !in s.rValues
    requires Decode(color).Some? && Decode(color).value.r == r
    ensures var t := s.CreateParamFn(r, fn).state;
      && t.BindValue(color, value) == Update(t, Some(RValueAlreadyRegistered))
      && t.RemoveBinding(color) == Update(t, Some(UseRemoveParamFn))
      && t.CreateParamFn(r, other) == Update(t, Some(RValueAlreadyRegistered))
  {
  }

  /** `createParamFn` keeps the reserved channels free of duplicates. */
  lemma CreateParamFnValid(s: State, r: Byte, fn: nat)
    requires s.Valid()
    ensures s.CreateParamFn(r, fn).state.Valid()
  {
  }

  lemma {:induction false} RemoveFirstSpec(s: seq<Byte>, x: Byte)
    requires forall i, j :: 0 <= i < j < |s| ==> s[i] != s[j]
    ensures x !in RemoveFirst(s, x)
    ensures forall y :: y != x ==> (y in RemoveFirst(s, x) <==> y in s)
    ensures var t := RemoveFirst(s, x); forall i, j :: 0 <= i < j < |t| ==> t[i] != t[j]
    ensures x !in s ==> RemoveFirst(s, x) == s
  {
    var k := IndexOf(s, x);
    if k > -1 {
      var t := s[..k] + s[k + 1..];
      assert forall i :: 0 <= i < |t| ==> t[i] == if i < k then s[i] else s[i + 1];
      forall y | y != x ensures y in t <==> y in s {
        if y in s {
          var i :| 0 <= i < |s| && s[i] == y;
          assert i != k;
          assert t[if i < k then i else i - 1] == y;
        }
      }
    }
  }

  /**
   * `removeParamFn(r)`: every code of the band now throws "No binding", `r`
   * is no longer reserved, and every other reserved channel stays reserved.
   */
  lemma RemoveParamFnClears(s: State, r: Byte, g: Byte, b: Byte)
    requires s.Valid()
    ensures var t := s.RemoveParamFn(r);
      && GetBinding(t.bindings, RgbToHex(Rgb(r, g, b))) == Failure(NoBinding(RgbToHex(Rgb(r, g, b))))
      && r !in t.rValues
      && (forall x :: x != r ==> (x in t.rValues <==> x in s.rValues))
      && t.Valid()
  {
    BandAt(r, 0, g, b);
    RemoveFirstSpec(s.rValues, r);
  }

  /**
   * `removeParamFn` leaves every key outside the band alone, among them the
   * codes of channel r spelled with upper-case digits.
   */
  lemma RemoveParamFnKeepsOthers(s: State, r: Byte, k: string)
    requires k !in BandKeys(r, BAND_SIZE)
    ensures var t := s.RemoveParamFn(r);
      && (k in t.bindings <==> k in s.bindings)
      && (k in s.bindings ==> t.bindings[k] == s.bindings[k])
  {
  }

  /**
   * A code spelled with an upper-case hex letter, such as `#05000A`, is never
   * a code `rgbToHex` builds, so `removeParamFn` keeps its binding whatever
   * its R channel.
   */
  lemma UpperCaseCodeKept(s: State, r: Byte, k: string)
    requires exists i :: 0 <= i < |k| && 'A' <= k[i] <= 'F'
    ensures k !in BandKeys(r, BAND_SIZE)
    ensures GetBinding(s.RemoveParamFn(r).bindings, k) == GetBinding(s.bindings, k)
  {
    forall j | 0 <= j < BAND_SIZE
      ensures BandKey(r, j) != k
    {
      RgbToHexFormat(Rgb(r, j / 256, j % 256));
    }
    if k in BandKeys(r, BAND_SIZE) {
      BandIndexOf(r, 0, BAND_SIZE, k);
    }
    RemoveParamFnKeepsOthers(s, r, k);
  }

  /** `removeParamFn` is idempotent. */
  lemma RemoveParamFnIdempotent(s: State, r: Byte)
    requires s.Valid()
    ensures s.RemoveParamFn(r).RemoveParamFn(r) == s.RemoveParamFn(r)
  {
    RemoveFirstSpec(s.rValues, r);
    RemoveFirstSpec(RemoveFirst(s.rValues, r), r);
    var m := s.bindings - BandKeys(r, BAND_SIZE);
    assert m - BandKeys(r, BAND_SIZE) == m;
  }

  /** After `removeParamFn(r)` the channel can be claimed again. */
  lemma CreateAfterRemove(s: State, r: Byte, fn: nat)
    requires s.Valid()
    ensures s.RemoveParamFn(r).CreateParamFn(r, fn).err == None
  {
    RemoveFirstSpec(s.rValues, r);
  }

  /** `removeParamFn` undoes `createParamFn` when the band held no entries before. */
  lemma RemoveUndoesCreate(s: State, r: Byte, fn: nat)
    requires r !in s.rValues
    requires forall g: Byte, b: Byte :: RgbToHex(Rgb(r, g, b)) !in s.bindings
    ensures s.CreateParamFn(r, fn).state.RemoveParamFn(r) == s
  {
    var t := s.CreateParamFn(r, fn).state;
    var m := t.bindings - BandKeys(r, BAND_SIZE);
    forall k | k in s.bindings ensures k in m && m[k] == s.bindings[k] {
      BandKeysExactly(r, fn, k);
    }
    forall k | k in m ensures k in s.bindings {
      BandKeysExactly(r, fn, k);
    }
    assert m == s.bindings;
    assert IndexOf(s.rValues + [r], r) == |s.rValues|;
    assert (s.rValues + [r])[..|s.rValues|] == s.rValues;
  }

  // ----- as written -----

  /** `checkRValue` as written, through `HexToRgbAsWritten`. */
  predicate CheckRValueAsWritten(rValues: seq<Byte>, color: string) {
    HexToRgbAsWritten(color).r in rValues
  }

  /** As written, `checkRValue` of any well-formed code only asks whether channel 0 is reserved. */
  lemma CheckRValueAsWrittenTestsZero(rValues: seq<Byte>, color: string)
    requires Decode(color).Some?
    ensures CheckRValueAsWritten(rValues, color) <==> 0 in rValues
  {
    HexToRgbAsWrittenIgnoresCode(color);
  }

  /**
   * Because `createParamFn` as written never records `r`, its band stays open:
   * a second `createParamFn(r, ...)` is accepted and `bindValue` overwrites an
   * adapter, against the comments at colorql.ts lines 26 and 60.
   */
  lemma CreateParamFnAsWrittenLeavesBandOpen(s: State, r: Byte, fn: nat, other: nat, value: JsValue)
    requires r !in s.rValues
    ensures var t := s.CreateParamFnAsWritten(r, fn).state;
      && t.rValues == s.rValues
      && t.CreateParamFnAsWritten(r, other).err == None
      && t.BindValue(RgbToHex(Rgb(r, 0, 0)), value).err == None
  {
    DecodeEncode(Rgb(r, 0, 0));
  }
}
