/**
 * The module-level state of colorql.ts (`colorBindings`, `rValues`) as an
 * object, and its exported operations as methods that change it in place.
 * `BindValue`, `BindFn`, `RemoveBinding`, `CreateParamFn` and `RemoveParamFn`
 * are each proved to perform the transition of `Registry.State` with the same
 * name; `CheckRValue` and `GetBinding` change nothing and state their results;
 * the loops `WriteBand` and `DeleteBand` are proved against `Registry.Band`
 * and `Registry.BandKeys`, and `ReadColors` against `Interpreter.Run`. The
 * constructor is the reset of both fields to empty.
 */
module Engines {
  import opened Wrappers
  import opened Codec
  import opened Js
  import opened Registry
  import opened Interpreter

  class Engine {
    var bindings: map<string, JsValue>
    var rValues: seq<Byte>

    function Model(): State
      reads this
    {
      State(bindings, rValues)
    }

    ghost predicate Valid()
      reads this
    {
      Model().Valid()
    }

    constructor ()
      ensures Valid() && bindings == map[] && rValues == []
    {
      bindings := map[];
      rValues := [];
    }

    /** `checkRValue`: whether the R channel of `color` is a reserved channel. */
    method CheckRValue(color: string) returns (restricted: bool)
      ensures restricted <==> exists c :: Decode(color) == Some(c) && c.r in rValues
    {
      var rgb := Decode(color);
      restricted := rgb.Some? && IndexOf(rValues, rgb.value.r) > -1;
    }

    method BindValue(color: string, value: JsValue) returns (err: Option<Error>)
      requires Valid()
      modifies this
      ensures Valid()
      ensures Update(Model(), err) == old(Model()).BindValue(color, value)
    {
      var restrictedR := CheckRValue(color);
      if !restrictedR {
        bindings := bindings[color := value];
        err := None;
      } else {
        err := Some(RValueAlreadyRegistered);
      }
    }

    method BindFn(color: string, fn: nat)
      requires Valid()
      modifies this
      ensures Valid()
      ensures Model() == old(Model()).BindFn(color, fn)
    {
      bindings := bindings[color := Function(UserFn(fn))];
    }

    /** `getBinding`: the stored value, or "No binding" when there is none or it is falsy. */
    method GetBinding(color: string) returns (binding: Result<JsValue, Error>)
      ensures binding.Success? <==> color in bindings && Truthy(bindings[color])
      ensures binding.Success? ==> binding.value == bindings[color]
      ensures binding.Failure? ==> binding.error == NoBinding(color)
    {
      if color in bindings && Truthy(bindings[color]) {
        binding := Success(bindings[color]);
      } else {
        binding := Failure(NoBinding(color));
      }
    }

    method RemoveBinding(color: string) returns (err: Option<Error>)
      requires Valid()
      modifies this
      ensures Valid()
      ensures Update(Model(), err) == old(Model()).RemoveBinding(color)
    {
      var restrictedR := CheckRValue(color);
      if !restrictedR {
        bindings := bindings - {color};
        err := None;
      } else {
        err := Some(UseRemoveParamFn);
      }
    }

    /** `createParamFn`: the band is written, then `r` is reserved. */
    method CreateParamFn(r: Byte, fn: nat) returns (err: Option<Error>)
      requires Valid()
      modifies this
      ensures Valid()
      ensures Update(Model(), err) == old(Model()).CreateParamFn(r, fn)
    {
      if IndexOf(rValues, r) == -1 {
        WriteBand(r, fn);
        rValues := rValues + [r];
        err := None;
      } else {
        err := Some(RValueAlreadyRegistered);
      }
    }

    /** The nested loops of `createParamFn`: the band is written pair by pair, G outer and B inner. */
    method WriteBand(r: Byte, fn: nat)
      modifies this
      ensures bindings == old(bindings) + Band(r, fn, BAND_SIZE)
      ensures rValues == old(rValues)
    {
      ghost var done := 0;   // number of (g, b) pairs written so far
      var g := 0;
      while g < 256
        invariant 0 <= g <= 256 && done == g * 256
        invariant bindings == old(bindings) + Band(r, fn, done)
        invariant rValues == old(rValues)
      {
        var b := 0;
        while b < 256
          invariant 0 <= b <= 256 && done == g * 256 + b
          invariant bindings == old(bindings) + Band(r, fn, done)
          invariant rValues == old(rValues)
        {
          InstallStep(bindings, old(bindings), r, fn, done, g, b);
          bindings := bindings[RgbToHex(Rgb(r, g, b)) := Function(ParamAdapter(fn, g, b))];
          b := b + 1;
          done := done + 1;
        }
        g := g + 1;
      }
    }

    /** `removeParamFn`: the band is deleted, then the first occurrence of `r` is spliced out. */
    method RemoveParamFn(r: Byte)
      requires Valid()
      modifies this
      ensures Valid()
      ensures Model() == old(Model()).RemoveParamFn(r)
    {
      DeleteBand(r);
      var index := IndexOf(rValues, r);
      if index > -1 {
        rValues := rValues[..index] + rValues[index + 1..];
      }
      RemoveFirstSpec(old(rValues), r);
    }

    /** The nested loops of `removeParamFn`: every pair's code is deleted, G outer and B inner. */
    method DeleteBand(r: Byte)
      modifies this
      ensures bindings == old(bindings) - BandKeys(r, BAND_SIZE)
      ensures rValues == old(rValues)
    {
      ghost var done := 0;   // number of (g, b) pairs deleted so far
      var g := 0;
      while g < 256
        invariant 0 <= g <= 256 && done == g * 256
        invariant bindings == old(bindings) - BandKeys(r, done)
        invariant rValues == old(rValues)
      {
        var b := 0;
        while b < 256
          invariant 0 <= b <= 256 && done == g * 256 + b
          invariant bindings == old(bindings) - BandKeys(r, done)
          invariant rValues == old(rValues)
        {
          DeleteStep(bindings, old(bindings), r, done, g, b);
          bindings := bindings - {RgbToHex(Rgb(r, g, b))};
          b := b + 1;
          done := done + 1;
        }
        g := g + 1;
      }
    }

    /**
     * `readColors(colors, isAsync)`: the `forEach` over the codes, with `isExec`,
     * `exec` and `execArray` updated in place. `env` gives the result of each
     * user function for its arguments; `invoked` records the user functions
     * run, in order, including those behind a parameter-function adapter.
     */
    method ReadColors(colors: seq<string>, isAsync: bool, env: (nat, seq<JsValue>) -> JsValue)
      returns (result: Result<ReadValue, Error>, invoked: seq<Invocation>)
      ensures result == Run(bindings, colors, isAsync, env)
      ensures invoked == Invocations(Scan(bindings, colors).state.calls)
    {
      var execArray: seq<JsValue> := [];
      var exec: seq<JsValue> := [];
      var isExec := false;
      ghost var calls: seq<Call> := [];
      invoked := [];
      var i := 0;
      while i < |colors|
        invariant 0 <= i <= |colors|
        invariant Scan(bindings, colors) == ScanFrom(bindings, ScanState(isExec, exec, calls), colors[i..])
        invariant execArray == if isAsync then Outcomes(calls, env) else []
        invariant invoked == Invocations(calls)
      {
        var color := colors[i];
        assert colors[i..][0] == color && colors[i..][1..] == colors[i + 1..];
        if color == WHITE {
          isExec := true;
          exec := [];
        }
        if isExec && color != WHITE && color != BLACK {
          var item := GetBinding(color);
          if item.Failure? {
            result := Failure(item.error);
            return;
          }
          exec := exec + [item.value];
        }
        if color == BLACK {
          var fn := Function(NoOp);
          if |exec| > 0 {
            fn := if Truthy(exec[0]) then exec[0] else Function(NoOp);
            exec := exec[1..];
          }
          if !fn.Function? {
            result := Failure(NotAFunction(fn));
            return;
          }
          var bound := Call(fn.f, exec);
          invoked := invoked + Invoked(bound);
          if isAsync {
            execArray := execArray + [Outcome(bound, env)];
          }
          assert (calls + [bound])[..|calls|] == calls;
          calls := calls + [bound];
          isExec := false;
        }
        i := i + 1;
      }
      result := Success(if isAsync then Results(execArray) else Completed);
    }
  }

  /** One pass of the inner loop of `createParamFn`: pair (g, b), number i, joins the band. */
  lemma InstallStep(cur: map<string, JsValue>, m: map<string, JsValue>, r: Byte, fn: nat, i: int, g: Byte, b: Byte)
    requires i == g * 256 + b
    requires cur == m + Band(r, fn, i)
    ensures i + 1 <= BAND_SIZE
    ensures cur[RgbToHex(Rgb(r, g, b)) := Function(ParamAdapter(fn, g, b))] == m + Band(r, fn, i + 1)
  {
    PairIndex(r, fn, i, g, b);
    UnionUpdate(m, Band(r, fn, i), BandKey(r, i), Adapter(fn, i));
  }

  /** One pass of the inner loop of `removeParamFn`: the code of pair (g, b), number i, is deleted. */
  lemma DeleteStep(cur: map<string, JsValue>, m: map<string, JsValue>, r: Byte, i: int, g: Byte, b: Byte)
    requires i == g * 256 + b
    requires cur == m - BandKeys(r, i)
    ensures i + 1 <= BAND_SIZE
    ensures cur - {RgbToHex(Rgb(r, g, b))} == m - BandKeys(r, i + 1)
  {
    PairIndex(r, 0, i, g, b);
    MinusAdd(m, BandKeys(r, i), BandKey(r, i));
  }

  /** Pair number i is the pair (g, b) of the nested loops. */
  lemma PairIndex(r: Byte, fn: nat, i: int, g: Byte, b: Byte)
    requires i == g * 256 + b
    ensures 0 <= i < BAND_SIZE
    ensures BandKey(r, i) == RgbToHex(Rgb(r, g, b))
    ensures Adapter(fn, i) == Function(ParamAdapter(fn, g, b))
  {
    assert i / 256 == g && i % 256 == b;
  }

  lemma UnionUpdate<K, V>(m: map<K, V>, n: map<K, V>, k: K, v: V)
    ensures (m + n)[k := v] == m + n[k := v]
  {
  }

  lemma MinusAdd<K, V>(m: map<K, V>, s: set<K>, k: K)
    ensures m - s - {k} == m - (s + {k})
  {
  }

  function Lookup(entries: map<ColorBox, JsValue>, key: ColorBox): Option<JsValue> {
    if key in entries then Some(entries[key]) else None
  }

  // ----- as written: a registry keyed by object identity -----

  /** The `{color}` wrapper object the source builds on every call. */
  class ColorBox {
    const color: string

    constructor (color: string)
      ensures this.color == color
    {
      this.color := color;
    }
  }

  /** `colorBindings` as written: a `WeakMap` whose keys are `ColorBox` objects. */
  class WeakKeyed {
    var entries: map<ColorBox, JsValue>

    constructor ()
      ensures entries == map[]
    {
      entries := map[];
    }

    /** `colorBindings.set({color}, value)`: the entry goes under a brand-new key. */
    method Set(color: string, value: JsValue)
      modifies this
      ensures exists key: ColorBox :: key !in old(entries) && entries == old(entries)[key := value]
    {
      var key := new ColorBox(color);
      assert key !in old(entries);
      entries := entries[key := value];
    }

    /** `colorBindings.get({color})`: the lookup key is brand new too, so it never finds anything. */
    method Get(color: string) returns (found: Option<JsValue>)
      ensures found == None
    {
      var key := new ColorBox(color);
      found := Lookup(entries, key);
    }

    /** `colorBindings.delete({color})`: never deletes anything. */
    method Delete(color: string)
      modifies this
      ensures entries == old(entries)
    {
      var key := new ColorBox(color);
      entries := entries - {key};
    }
  }
}
