/**
 * The statement language of `readColors` (colorql.ts lines 104-133), as a
 * pure left-to-right scan over color codes.
 *
 * `#FFFFFF` opens a statement and empties the buffer; any other code seen
 * while a statement is open is looked up with `getBinding` and appended;
 * `#000000` closes: the first buffered value (or `function() {}` when the
 * buffer is empty) is called with the rest as arguments. The close is not
 * guarded by the open flag, and the buffer is not emptied by a close.
 *
 * The scan is sequential and stops at the first failure.
 */
module Interpreter {
  import opened Wrappers
  import opened Js
  import opened Registry

  const WHITE: string := "#FFFFFF"
  const BLACK: string := "#000000"

  /** One invocation of `boundFn`: the callable and the arguments bound to it. */
  datatype Call = Call(target: Callable, args: seq<JsValue>)

  /** `isExec`, `exec`, and the statements dispatched so far. */
  datatype ScanState = ScanState(isExec: bool, exec: seq<JsValue>, calls: seq<Call>)

  /** Where a scan stopped: its last state, and the failure that stopped it, if any. */
  datatype Scanned = Scanned(state: ScanState, err: Option<Error>)

  /** One call of a user function, as the host sees it. */
  datatype Invocation = Invocation(fn: nat, args: seq<JsValue>)

  /** What `readColors` resolves to: `true`, or the statements' results. */
  datatype ReadValue = Completed | Results(values: seq<JsValue>)

  const Initial: ScanState := ScanState(false, [], [])

  /** `exec.shift() || function() {}`: the callable of a closing statement. */
  function Shifted(exec: seq<JsValue>): JsValue {
    if |exec| > 0 && Truthy(exec[0]) then exec[0] else Function(NoOp)
  }

  /** What is left in `exec` after the `shift`. */
  function Unshifted(exec: seq<JsValue>): seq<JsValue> {
    if |exec| > 0 then exec[1..] else []
  }

  /**
   * The body of the `forEach` callback for one code: the three `if`s of
   * lines 109, 113 and 117 in turn. A failed lookup, and `fn.bind` on a
   * value that is not a function, stop the scan.
   */
  function Step(bindings: map<string, JsValue>, st: ScanState, color: string): Result<ScanState, Error> {
    var started := if color == WHITE then st.(isExec := true, exec := []) else st;
    if started.isExec && color != WHITE && color != BLACK then
      match GetBinding(bindings, color)
      case Failure(e) => Failure(e)
      case Success(item) => Success(started.(exec := started.exec + [item]))
    else if color == BLACK then
      var fn := Shifted(started.exec);
      var rest := Unshifted(started.exec);
      if fn.Function? then Success(ScanState(false, rest, started.calls + [Call(fn.f, rest)]))
      else Failure(NotAFunction(fn))
    else Success(started)
  }

  function ScanFrom(bindings: map<string, JsValue>, st: ScanState, colors: seq<string>): Scanned
    decreases |colors|
  {
    if colors == [] then Scanned(st, None)
    else
      match Step(bindings, st, colors[0])
      case Failure(e) => Scanned(st, Some(e))
      case Success(next) => ScanFrom(bindings, next, colors[1..])
  }

  function Scan(bindings: map<string, JsValue>, colors: seq<string>): Scanned {
    ScanFrom(bindings, Initial, colors)
  }

  /** What one dispatched statement returns: a user function's result, or `undefined`. */
  function Outcome(stmt: Call, env: (nat, seq<JsValue>) -> JsValue): JsValue {
    match stmt.target
    case UserFn(id) => env(id, stmt.args)
    case ParamAdapter(_, _, _) => Undefined   // `() => { fn(g, b) }` returns nothing
    case NoOp => Undefined
  }

  /** The results of the statements, in statement order. */
  function Outcomes(calls: seq<Call>, env: (nat, seq<JsValue>) -> JsValue): (values: seq<JsValue>)
    ensures |values| == |calls|
    ensures forall i :: 0 <= i < |calls| ==> values[i] == Outcome(calls[i], env)
  {
    if calls == [] then []
    else Outcomes(calls[..|calls| - 1], env) + [Outcome(calls[|calls| - 1], env)]
  }

  /** The user functions one statement runs: its own function, or through an adapter `fn(g, b)`. */
  function Invoked(stmt: Call): seq<Invocation> {
    match stmt.target
    case UserFn(id) => [Invocation(id, stmt.args)]
    case ParamAdapter(fn, g, b) => [Invocation(fn, [Num(g), Num(b)])]
    case NoOp => []
  }

  function Invocations(calls: seq<Call>): seq<Invocation> {
    if calls == [] then [] else Invocations(calls[..|calls| - 1]) + Invoked(calls[|calls| - 1])
  }

  /** `readColors(colors, isAsync)`: the results in order when `isAsync`, `true` otherwise. */
  function Run(bindings: map<string, JsValue>, colors: seq<string>, isAsync: bool,
               env: (nat, seq<JsValue>) -> JsValue): Result<ReadValue, Error>
  {
    var s := Scan(bindings, colors);
    if s.err.Some? then Failure(s.err.value)
    else if isAsync then Success(Results(Outcomes(s.state.calls, env)))
    else Success(Completed)
  }

  // ----- the scan, piece by piece -----

  /** Scanning a concatenation is scanning the first part, then (unless it failed) the second. */
  lemma {:induction false} ScanAppend(bindings: map<string, JsValue>, st: ScanState, xs: seq<string>, ys: seq<string>)
    ensures var m := ScanFrom(bindings, st, xs);
      ScanFrom(bindings, st, xs + ys) == if m.err.Some? then m else ScanFrom(bindings, m.state, ys)
    decreases |xs|
  {
    if xs == [] {
      assert xs + ys == ys;
    } else {
      assert (xs + ys)[0] == xs[0];
      assert (xs + ys)[1..] == xs[1..] + ys;
      match Step(bindings, st, xs[0])
      case Failure(_) =>
      case Success(next) => ScanAppend(bindings, next, xs[1..], ys);
    }
  }

  /** A scan never forgets a dispatched statement: the calls only grow. */
  lemma {:induction false} CallsGrow(bindings: map<string, JsValue>, st: ScanState, colors: seq<string>)
    ensures st.calls <= ScanFrom(bindings, st, colors).state.calls
    decreases |colors|
  {
    if colors != [] {
      match Step(bindings, st, colors[0])
      case Failure(_) =>
      case Success(next) => CallsGrow(bindings, next, colors[1..]);
    }
  }

  // ----- the reference reading of a program -----

  /** A run of codes with neither sentinel in it. */
  predicate Plain(tokens: seq<string>) {
    forall i :: 0 <= i < |tokens| ==> tokens[i] != WHITE && tokens[i] != BLACK
  }

  lemma PlainTail(tokens: seq<string>)
    requires Plain(tokens) && tokens != []
    ensures tokens[0] != WHITE && tokens[0] != BLACK && Plain(tokens[1..])
  {
    forall i | 0 <= i < |tokens| - 1 ensures tokens[1..][i] != WHITE && tokens[1..][i] != BLACK {
      assert tokens[1..][i] == tokens[i + 1];
    }
  }

  /** Codes outside any statement, then one statement `#FFFFFF body #000000`. */
  datatype Segment = Segment(skipped: seq<string>, body: seq<string>)

  predicate WellFormed(program: seq<Segment>) {
    forall i :: 0 <= i < |program| ==> Plain(program[i].skipped) && Plain(program[i].body)
  }

  function RenderSegment(seg: Segment): seq<string> {
    seg.skipped + [WHITE] + seg.body + [BLACK]
  }

  function Render(program: seq<Segment>): seq<string> {
    if program == [] then [] else RenderSegment(program[0]) + Render(program[1..])
  }

  /** Looking up a statement's codes one by one, stopping at the first that has no binding. */
  function Resolve(bindings: map<string, JsValue>, tokens: seq<string>): Result<seq<JsValue>, Error>
    decreases |tokens|
  {
    if tokens == [] then Success([])
    else
      match GetBinding(bindings, tokens[0])
      case Failure(e) => Failure(e)
      case Success(v) =>
        match Resolve(bindings, tokens[1..])
        case Failure(e) => Failure(e)
        case Success(vs) => Success([v] + vs)
  }

  /**
   * A statement resolves exactly when every one of its codes is bound to a
   * truthy value; the values are then those bindings, in order, and otherwise
   * the error names the first code without a truthy binding.
   */
  lemma {:induction false} ResolveSpec(bindings: map<string, JsValue>, tokens: seq<string>)
    ensures var r := Resolve(bindings, tokens);
      && (r.Success? <==> forall i :: 0 <= i < |tokens| ==> tokens[i] in bindings && Truthy(bindings[tokens[i]]))
      && (r.Success? ==> |r.value| == |tokens| && forall i :: 0 <= i < |tokens| ==> r.value[i] == bindings[tokens[i]])
      && (r.Failure? ==> exists i :: && 0 <= i < |tokens| && r.error == NoBinding(tokens[i])
                                 && !(tokens[i] in bindings && Truthy(bindings[tokens[i]]))
                                 && forall j :: 0 <= j < i ==> tokens[j] in bindings && Truthy(bindings[tokens[j]]))
    decreases |tokens|
  {
    if tokens != [] {
      var tail := tokens[1..];
      ResolveSpec(bindings, tail);
      assert forall i :: 0 <= i < |tail| ==> tail[i] == tokens[i + 1];
      match GetBinding(bindings, tokens[0])
      case Failure(e) =>
      case Success(v) =>
        match Resolve(bindings, tail)
        case Failure(e) =>
          var j :| && 0 <= j < |tail| && e == NoBinding(tail[j])
                   && !(tail[j] in bindings && Truthy(bindings[tail[j]]))
                   && forall k :: 0 <= k < j ==> tail[k] in bindings && Truthy(bindings[tail[k]]);
          assert tokens[j + 1] == tail[j];
          assert forall k :: 1 <= k < j + 1 ==> tokens[k] == tail[k - 1];
        case Success(vs) =>
          assert forall i :: 1 <= i < |tokens| ==> tokens[i] == tail[i - 1];
          assert forall i :: 1 <= i < |tokens| ==> ([v] + vs)[i] == vs[i - 1];
    }
  }

  /** The call a statement with these resolved values makes: the first is the function, the rest its arguments. */
  function StatementCall(values: seq<JsValue>): Result<Call, Error> {
    if values == [] then Success(Call(NoOp, []))
    else if values[0].Function? then Success(Call(values[0].f, values[1..]))
    else Failure(NotAFunction(values[0]))
  }

  /** The calls of the statements, in order, up to the first statement that fails. */
  datatype Effect = Effect(calls: seq<Call>, err: Option<Error>)

  /** The call one statement makes, or why it cannot be made. */
  function SegmentCall(bindings: map<string, JsValue>, seg: Segment): Result<Call, Error> {
    match Resolve(bindings, seg.body)
    case Failure(e) => Failure(e)
    case Success(values) => StatementCall(values)
  }

  function Meaning(bindings: map<string, JsValue>, program: seq<Segment>): Effect {
    if program == [] then Effect([], None)
    else
      match SegmentCall(bindings, program[0])
      case Failure(e) => Effect([], Some(e))
      case Success(stmt) =>
        var rest := Meaning(bindings, program[1..]);
        Effect([stmt] + rest.calls, rest.err)
  }

  /** Outside a statement, codes without a sentinel are skipped and never looked up. */
  lemma {:induction false} SkipPlain(bindings: map<string, JsValue>, st: ScanState, tokens: seq<string>)
    requires !st.isExec && Plain(tokens)
    ensures ScanFrom(bindings, st, tokens) == Scanned(st, None)
    decreases |tokens|
  {
    if tokens != [] {
      PlainTail(tokens);
      SkipPlain(bindings, st, tokens[1..]);
    }
  }

  /** Inside a statement, codes without a sentinel are resolved and buffered in order. */
  lemma {:induction false} BufferPlain(bindings: map<string, JsValue>, buffer: seq<JsValue>, calls: seq<Call>, tokens: seq<string>)
    requires Plain(tokens)
    ensures var m := ScanFrom(bindings, ScanState(true, buffer, calls), tokens);
      && m.state.calls == calls
      && (m.err.None? <==> Resolve(bindings, tokens).Success?)
      && (Resolve(bindings, tokens).Success? ==> m.state == ScanState(true, buffer + Resolve(bindings, tokens).value, calls))
      && (Resolve(bindings, tokens).Failure? ==> m.err == Some(Resolve(bindings, tokens).error))
    decreases |tokens|
  {
    if tokens == [] {
      assert buffer + [] == buffer;
    } else {
      PlainTail(tokens);
      match GetBinding(bindings, tokens[0])
      case Failure(e) =>
      case Success(v) =>
        BufferPlain(bindings, buffer + [v], calls, tokens[1..]);
        match Resolve(bindings, tokens[1..])
        case Failure(_) =>
        case Success(vs) => assert buffer + [v] + vs == buffer + ([v] + vs);
    }
  }

  /** One segment, scanned from outside a statement, makes exactly the segment's call. */
  lemma SegmentScan(bindings: map<string, JsValue>, st: ScanState, seg: Segment)
    requires !st.isExec && Plain(seg.skipped) && Plain(seg.body)
    ensures var m := ScanFrom(bindings, st, RenderSegment(seg));
      var c := SegmentCall(bindings, seg);
      && (c.Failure? ==> m.err == Some(c.error) && m.state.calls == st.calls)
      && (c.Success? ==> m.err.None? && !m.state.isExec && m.state.calls == st.calls + [c.value])
  {
    var w := seg.skipped + [WHITE];
    var wb := w + seg.body;
    var begun := ScanState(true, [], st.calls);
    assert ScanFrom(bindings, st, w) == Scanned(begun, None) by {
      ScanAppend(bindings, st, seg.skipped, [WHITE]);
      SkipPlain(bindings, st, seg.skipped);
      assert [WHITE][1..] == [];
    }
    assert ScanFrom(bindings, st, wb) == ScanFrom(bindings, begun, seg.body) by {
      ScanAppend(bindings, st, w, seg.body);
    }
    BufferPlain(bindings, [], st.calls, seg.body);
    ScanAppend(bindings, st, wb, [BLACK]);
    match Resolve(bindings, seg.body)
    case Failure(e) =>
    case Success(values) =>
      assert [] + values == values;
      ResolvedHead(bindings, seg.body);
      CloseStep(bindings, values, st.calls);
  }

  /** The first value of a resolved statement is truthy. */
  lemma ResolvedHead(bindings: map<string, JsValue>, tokens: seq<string>)
    requires Resolve(bindings, tokens).Success?
    ensures var values := Resolve(bindings, tokens).value;
      |values| == |tokens| && (values != [] ==> Truthy(values[0]))
    decreases |tokens|
  {
    if tokens != [] {
      ResolvedHead(bindings, tokens[1..]);
    }
  }

  /** The closing `#000000` of a statement whose buffer holds these values dispatches their call. */
  lemma CloseStep(bindings: map<string, JsValue>, values: seq<JsValue>, calls: seq<Call>)
    requires values != [] ==> Truthy(values[0])
    ensures var m := ScanFrom(bindings, ScanState(true, values, calls), [BLACK]);
      var c := StatementCall(values);
      && (c.Failure? ==> m.err == Some(c.error) && m.state.calls == calls)
      && (c.Success? ==> m.err.None? && !m.state.isExec && m.state.calls == calls + [c.value])
  {
    assert [BLACK][1..] == [];
  }

  lemma WellFormedTail(program: seq<Segment>)
    requires WellFormed(program) && program != []
    ensures Plain(program[0].skipped) && Plain(program[0].body) && WellFormed(program[1..])
  {
    var tail := program[1..];
    forall i | 0 <= i < |tail| ensures Plain(tail[i].skipped) && Plain(tail[i].body) {
      assert tail[i] == program[i + 1];
    }
  }

  /**
   * The first statement of a program, scanned from outside a statement: it
   * either stops the scan with its error, or adds its call and leaves the
   * rest of the program to be scanned from a closed state.
   */
  lemma FirstSegmentScan(bindings: map<string, JsValue>, st: ScanState, program: seq<Segment>)
    requires !st.isExec && WellFormed(program) && program != []
    ensures var whole := ScanFrom(bindings, st, Render(program));
      var next := ScanFrom(bindings, st, RenderSegment(program[0])).state;
      var c := SegmentCall(bindings, program[0]);
      && (c.Failure? ==> whole.err == Some(c.error) && whole.state.calls == st.calls)
      && (c.Success? ==> && !next.isExec && next.calls == st.calls + [c.value]
                         && whole == ScanFrom(bindings, next, Render(program[1..])))
  {
    var seg := program[0];
    WellFormedTail(program);
    assert Render(program) == RenderSegment(seg) + Render(program[1..]);
    ScanAppend(bindings, st, RenderSegment(seg), Render(program[1..]));
    SegmentScan(bindings, st, seg);
  }

  /** `Meaning` of a nonempty program, one statement at a time. */
  lemma MeaningCons(bindings: map<string, JsValue>, program: seq<Segment>)
    requires program != []
    ensures var c := SegmentCall(bindings, program[0]);
      var rest := Meaning(bindings, program[1..]);
      && (c.Failure? ==> Meaning(bindings, program) == Effect([], Some(c.error)))
      && (c.Success? ==> Meaning(bindings, program) == Effect([c.value] + rest.calls, rest.err))
  {
  }

  /** Scanning a rendered program from outside a statement dispatches its statements in order. */
  lemma {:induction false} RenderScan(bindings: map<string, JsValue>, st: ScanState, program: seq<Segment>)
    requires !st.isExec && WellFormed(program)
    ensures var m := ScanFrom(bindings, st, Render(program));
      var e := Meaning(bindings, program);
      && m.state.calls == st.calls + e.calls && m.err == e.err
      && (m.err.None? ==> !m.state.isExec)
    decreases |program|
  {
    var m := ScanFrom(bindings, st, Render(program));
    var e := Meaning(bindings, program);
    if program == [] {
      assert st.calls + [] == st.calls;
    } else {
      var c := SegmentCall(bindings, program[0]);
      if c.Success? {
        var next := ScanFrom(bindings, st, RenderSegment(program[0])).state;
        var rest := Meaning(bindings, program[1..]);
        assert m == ScanFrom(bindings, next, Render(program[1..])) && !next.isExec
          && next.calls == st.calls + [c.value] && e == Effect([c.value] + rest.calls, rest.err) by {
          FirstSegmentScan(bindings, st, program);
          MeaningCons(bindings, program);
        }
        assert m.state.calls == next.calls + rest.calls && m.err == rest.err && (m.err.None? ==> !m.state.isExec) by {
          WellFormedTail(program);
          RenderScan(bindings, next, program[1..]);
        }
        assert st.calls + [c.value] + rest.calls == st.calls + ([c.value] + rest.calls);
      } else {
        assert m.err == Some(c.error) && m.state.calls == st.calls && e == Effect([], Some(c.error)) by {
          FirstSegmentScan(bindings, st, program);
          MeaningCons(bindings, program);
        }
      }
    }
  }

  /**
   * The reference theorem: on a program of statements, `readColors` calls
   * the first binding of each statement with the others as arguments, in
   * statement order, skips the codes between statements, and stops at the
   * first statement that cannot be resolved.
   */
  lemma ScanOfRender(bindings: map<string, JsValue>, program: seq<Segment>, isAsync: bool,
                     env: (nat, seq<JsValue>) -> JsValue)
    requires WellFormed(program)
    ensures Scan(bindings, Render(program)).state.calls == Meaning(bindings, program).calls
    ensures Scan(bindings, Render(program)).err == Meaning(bindings, program).err
    ensures Run(bindings, Render(program), isAsync, env) ==
      var e := Meaning(bindings, program);
      if e.err.Some? then Failure(e.err.value)
      else if isAsync then Success(Results(Outcomes(e.calls, env)))
      else Success(Completed)
  {
    RenderScan(bindings, Initial, program);
    assert [] + Meaning(bindings, program).calls == Meaning(bindings, program).calls;
  }

  /**
   * What may follow a program's last `#000000`: codes outside any statement,
   * then possibly a `#FFFFFF` that is never closed.
   */
  datatype Trailer = Trailer(skipped: seq<string>, unclosed: Option<seq<string>>)

  predicate PlainTrailer(t: Trailer) {
    Plain(t.skipped) && (t.unclosed.Some? ==> Plain(t.unclosed.value))
  }

  function RenderTrailer(t: Trailer): seq<string> {
    match t.unclosed
    case None => t.skipped
    case Some(body) => t.skipped + [WHITE] + body
  }

  /** An unclosed statement dispatches nothing, but its codes are still looked up. */
  function TrailerError(bindings: map<string, JsValue>, t: Trailer): Option<Error> {
    match t.unclosed
    case None => None
    case Some(body) =>
      match Resolve(bindings, body)
      case Failure(e) => Some(e)
      case Success(_) => None
  }

  /** Scanning a trailer from outside a statement adds no call, and fails exactly when its unclosed statement does. */
  lemma TrailerScan(bindings: map<string, JsValue>, st: ScanState, t: Trailer)
    requires !st.isExec && PlainTrailer(t)
    ensures var m := ScanFrom(bindings, st, RenderTrailer(t));
      m.state.calls == st.calls && m.err == TrailerError(bindings, t)
  {
    SkipPlain(bindings, st, t.skipped);
    match t.unclosed
    case None =>
    case Some(body) =>
      var w := t.skipped + [WHITE];
      assert ScanFrom(bindings, st, w) == Scanned(ScanState(true, [], st.calls), None) by {
        ScanAppend(bindings, st, t.skipped, [WHITE]);
        assert [WHITE][1..] == [];
      }
      ScanAppend(bindings, st, w, body);
      BufferPlain(bindings, [], st.calls, body);
  }

  /**
   * `readColors` on any program of statements followed by a trailer: the
   * statements' calls in order, unless a statement fails or the unclosed
   * statement at the end has a code without a binding.
   */
  lemma ScanOfProgram(bindings: map<string, JsValue>, program: seq<Segment>, t: Trailer, isAsync: bool,
                      env: (nat, seq<JsValue>) -> JsValue)
    requires WellFormed(program) && PlainTrailer(t)
    ensures Run(bindings, Render(program) + RenderTrailer(t), isAsync, env) ==
      var e := Meaning(bindings, program);
      var tail := TrailerError(bindings, t);
      if e.err.Some? then Failure(e.err.value)
      else if tail.Some? then Failure(tail.value)
      else if isAsync then Success(Results(Outcomes(e.calls, env)))
      else Success(Completed)
  {
    var e := Meaning(bindings, program);
    RenderScan(bindings, Initial, program);
    assert [] + e.calls == e.calls;
    var m := Scan(bindings, Render(program));
    ScanAppend(bindings, Initial, Render(program), RenderTrailer(t));
    if m.err.None? {
      TrailerScan(bindings, m.state, t);
    }
  }

  /** An unclosed final statement with an unbound code fails the run, though the first statement was dispatched. */
  lemma UnclosedExample(a: string, missing: string, env: (nat, seq<JsValue>) -> JsValue, isAsync: bool)
    requires Plain([a, missing]) && a != missing
    ensures Run(map[a := Function(UserFn(1))], [WHITE, a, BLACK, WHITE, missing], isAsync, env)
      == Failure(NoBinding(missing))
  {
    var bindings := map[a := Function(UserFn(1))];
    var t := Trailer([], Some([missing]));
    assert PlainTrailer(t) by {
      assert Plain([missing]) by { assert [missing] == [a, missing][1..]; PlainTail([a, missing]); }
    }
    assert Plain([a]) by { assert [a] == [a, missing][..1]; }
    OneStatement(bindings, [a]);
    OneCode(bindings, [a][0]);
    OneCode(bindings, missing);
    assert Resolve(bindings, [missing]) == Failure(NoBinding(missing)) by {
      assert [missing][1..] == [];
    }
    assert Render([Segment([], [a])]) + RenderTrailer(t) == [WHITE, a, BLACK, WHITE, missing];
    ScanOfProgram(bindings, [Segment([], [a])], t, isAsync, env);
  }

  /**
   * A second `#FFFFFF` re-opens a statement that was never closed; the
   * abandoned codes are still looked up, and one without a binding fails the run.
   */
  lemma ReopenExample(a: string, b: string, env: (nat, seq<JsValue>) -> JsValue, isAsync: bool)
    requires Plain([a, b]) && a != b
    ensures Run(map[b := Function(UserFn(1))], [WHITE, a, WHITE, b, BLACK], isAsync, env)
      == Failure(NoBinding(a))
  {
    var bindings := map[b := Function(UserFn(1))];
    var colors := [WHITE, a, WHITE, b, BLACK];
    assert a != WHITE && a != BLACK by { PlainTail([a, b]); }
    assert colors[1..][0] == a;
    assert Step(bindings, Initial, WHITE) == Success(ScanState(true, [], []));
    assert Scan(bindings, colors) == ScanFrom(bindings, ScanState(true, [], []), colors[1..]);
    assert Scan(bindings, colors) == Scanned(ScanState(true, [], []), Some(NoBinding(a)));
  }

  // ----- the edges of the scan -----

  /**
   * The close at line 117 is not guarded by the open flag, and a close leaves
   * the arguments in the buffer: a second `#000000` dispatches the leftover
   * arguments again, the first of them as the function.
   */
  lemma StrayCloseRedispatches(bindings: map<string, JsValue>, calls: seq<Call>, f: Callable, args: seq<JsValue>)
    requires forall i :: 0 <= i < |args| ==> Truthy(args[i])
    ensures Step(bindings, ScanState(false, [Function(f)] + args, calls), BLACK)
      == Success(ScanState(false, args, calls + [Call(f, args)]))
    ensures |args| > 0 && args[0].Function? ==>
      Step(bindings, ScanState(false, args, calls), BLACK)
        == Success(ScanState(false, args[1..], calls + [Call(args[0].f, args[1..])]))
  {
    assert ([Function(f)] + args)[1..] == args;
  }

  /** The `#000000, Fn, params, #FFFFFF` order of the comment at line 102 calls only `function() {}`. */
  lemma CommentOrderCallsNothing(bindings: map<string, JsValue>, fn: string, params: seq<string>)
    requires Plain([fn] + params)
    ensures Scan(bindings, [BLACK, fn] + params + [WHITE]) == Scanned(ScanState(true, [], [Call(NoOp, [])]), None)
  {
    var closed := ScanState(false, [], [Call(NoOp, [])]);
    assert BLACK != WHITE by { assert BLACK[1] != WHITE[1]; }
    assert Shifted([]) == Function(NoOp) && Unshifted([]) == [];
    assert Initial.calls + [Call(NoOp, [])] == [Call(NoOp, [])];
    assert Step(bindings, Initial, BLACK) == Success(closed);
    ScanAppend(bindings, Initial, [BLACK], [fn] + params + [WHITE]);
    assert [BLACK] + ([fn] + params + [WHITE]) == [BLACK, fn] + params + [WHITE];
    ScanAppend(bindings, closed, [fn] + params, [WHITE]);
    SkipPlain(bindings, closed, [fn] + params);
    assert [WHITE][1..] == [];
  }

  /** The sentinels are compared as strings, before any lookup: their bindings are never consulted. */
  lemma SentinelsIgnoreBindings(b1: map<string, JsValue>, b2: map<string, JsValue>, st: ScanState)
    ensures Step(b1, st, WHITE) == Step(b2, st, WHITE)
    ensures Step(b1, st, BLACK) == Step(b2, st, BLACK)
  {
  }

  /** Code (0, 0, 0) of a band is `#000000` itself, so it always closes; `#ffffff` is not the opener. */
  lemma SentinelCodes()
    ensures Codec.RgbToHex(Codec.Rgb(0, 0, 0)) == BLACK
    ensures Codec.RgbToHex(Codec.Rgb(255, 255, 255)) != WHITE
  {
    Codec.RgbToHexFormat(Codec.Rgb(255, 255, 255));
    assert !Codec.IsLowerHexDigit(WHITE[1]);
    Codec.BlackCode();
  }

  /** No code `rgbToHex` builds is a sentinel, except that (0, 0, 0) is `#000000`. */
  lemma NotSentinel(c: Codec.Rgb)
    requires c != Codec.Rgb(0, 0, 0)
    ensures Codec.RgbToHex(c) != WHITE && Codec.RgbToHex(c) != BLACK
  {
    Codec.RgbToHexFormat(c);
    assert !Codec.IsLowerHexDigit(WHITE[1]);
    SentinelCodes();
    Codec.DecodeEncode(c);
    Codec.DecodeEncode(Codec.Rgb(0, 0, 0));
  }

  // ----- small programs -----

  /** A program of one statement with no leading codes. */
  lemma OneStatement(bindings: map<string, JsValue>, body: seq<string>)
    requires Plain(body)
    ensures WellFormed([Segment([], body)])
    ensures Render([Segment([], body)]) == [WHITE] + body + [BLACK]
    ensures var e := Meaning(bindings, [Segment([], body)]);
      var c := SegmentCall(bindings, Segment([], body));
      && (c.Success? ==> e == Effect([c.value], None))
      && (c.Failure? ==> e == Effect([], Some(c.error)))
  {
    var program := [Segment([], body)];
    assert Render(program[1..]) == [];
    assert Meaning(bindings, program[1..]) == Effect([], None);
  }

  /** A program of two statements with no leading codes. */
  lemma TwoStatements(bindings: map<string, JsValue>, first: seq<string>, second: seq<string>)
    requires Plain(first) && Plain(second)
    ensures WellFormed([Segment([], first), Segment([], second)])
    ensures Render([Segment([], first), Segment([], second)]) == [WHITE] + first + [BLACK, WHITE] + second + [BLACK]
    ensures var e := Meaning(bindings, [Segment([], first), Segment([], second)]);
      var c1 := SegmentCall(bindings, Segment([], first));
      var c2 := SegmentCall(bindings, Segment([], second));
      && (c1.Failure? ==> e == Effect([], Some(c1.error)))
      && (c1.Success? && c2.Failure? ==> e == Effect([c1.value], Some(c2.error)))
      && (c1.Success? && c2.Success? ==> e == Effect([c1.value, c2.value], None))
  {
    var program := [Segment([], first), Segment([], second)];
    assert program[1..] == [Segment([], second)];
    OneStatement(bindings, second);
    assert Render(program) == RenderSegment(program[0]) + Render(program[1..]);
  }

  /** A statement of one code calls that code's function with no arguments. */
  lemma OneCode(bindings: map<string, JsValue>, code: string)
    ensures var v := GetBinding(bindings, code);
      && (v.Failure? ==> SegmentCall(bindings, Segment([], [code])) == Failure(v.error))
      && (v.Success? ==> SegmentCall(bindings, Segment([], [code])) == StatementCall([v.value]))
  {
    assert [code][1..] == [];
    assert Resolve(bindings, [code][1..]) == Success([]);
    var v := GetBinding(bindings, code);
    if v.Success? {
      assert [v.value] + [] == [v.value];
      assert Resolve(bindings, [code]) == Success([v.value]);
    }
  }

  /** Statements run in order: `[#FFFFFF, A, #000000, #FFFFFF, B, #000000]` yields A's result, then B's. */
  lemma OrderExample(a: string, b: string, env: (nat, seq<JsValue>) -> JsValue)
    requires Plain([a, b]) && a != b
    ensures var bindings := map[a := Function(UserFn(1)), b := Function(UserFn(2))];
      Run(bindings, [WHITE, a, BLACK, WHITE, b, BLACK], true, env) == Success(Results([env(1, []), env(2, [])]))
  {
    var bindings := map[a := Function(UserFn(1)), b := Function(UserFn(2))];
    var program := [Segment([], [a]), Segment([], [b])];
    var c1 := Call(UserFn(1), []);
    var c2 := Call(UserFn(2), []);
    assert Plain([a]) && Plain([b]) by { assert [a, b][0] == a && [a, b][1] == b; }
    OneCode(bindings, a);
    OneCode(bindings, b);
    TwoStatements(bindings, [a], [b]);
    assert [WHITE] + [a] + [BLACK, WHITE] + [b] + [BLACK] == [WHITE, a, BLACK, WHITE, b, BLACK];
    ScanOfRender(bindings, program, true, env);
    assert Outcomes([c1, c2], env) == [env(1, []), env(2, [])] by {
      var out := Outcomes([c1, c2], env);
      assert out[0] == env(1, []) && out[1] == env(2, []);
    }
  }

  /** Arguments are passed in order: `sum` bound to one code, 3 and 4 to two more, yields `sum(3, 4)`. */
  lemma SumExample(f: string, x: string, y: string, env: (nat, seq<JsValue>) -> JsValue)
    requires Plain([f, x, y]) && f != x && f != y && x != y
    ensures var bindings := map[f := Function(UserFn(0)), x := Num(3), y := Num(4)];
      Run(bindings, [WHITE, f, x, y, BLACK], true, env) == Success(Results([env(0, [Num(3), Num(4)])]))
  {
    var bindings := map[f := Function(UserFn(0)), x := Num(3), y := Num(4)];
    var body := [f, x, y];
    var c := Call(UserFn(0), [Num(3), Num(4)]);
    assert SegmentCall(bindings, Segment([], body)) == Success(c) by {
      assert bindings[f] == Function(UserFn(0)) && bindings[x] == Num(3) && bindings[y] == Num(4);
      ResolveSpec(bindings, body);
      assert Resolve(bindings, body).Success?;
      var values := Resolve(bindings, body).value;
      assert values[0] == Function(UserFn(0)) && values[1] == Num(3) && values[2] == Num(4);
      assert values == [Function(UserFn(0)), Num(3), Num(4)];
      assert values[1..] == [Num(3), Num(4)];
    }
    OneStatement(bindings, body);
    assert [WHITE] + body + [BLACK] == [WHITE, f, x, y, BLACK];
    ScanOfRender(bindings, [Segment([], body)], true, env);
    assert Outcomes([c], env) == [env(0, [Num(3), Num(4)])] by {
      assert Outcomes([c], env)[0] == env(0, [Num(3), Num(4)]);
    }
  }

  /** Fail-fast: one unbound code in a later statement fails the whole call, and no results are returned. */
  lemma FailFastExample(a: string, missing: string, env: (nat, seq<JsValue>) -> JsValue, isAsync: bool)
    requires Plain([a, missing]) && a != missing
    ensures Run(map[a := Function(UserFn(1))], [WHITE, a, BLACK, WHITE, missing, BLACK], isAsync, env)
      == Failure(NoBinding(missing))
  {
    var bindings := map[a := Function(UserFn(1))];
    var program := [Segment([], [a]), Segment([], [missing])];
    assert Plain([a]) && Plain([missing]) by { assert [a, missing][0] == a && [a, missing][1] == missing; }
    OneCode(bindings, a);
    OneCode(bindings, missing);
    TwoStatements(bindings, [a], [missing]);
    assert [WHITE] + [a] + [BLACK, WHITE] + [missing] + [BLACK] == [WHITE, a, BLACK, WHITE, missing, BLACK];
    ScanOfRender(bindings, program, isAsync, env);
  }

  /**
   * A statement whose first code is bound to a parameter-function adapter runs
   * `fn(g, b)`, whatever arguments follow, and its own result is `undefined`.
   */
  lemma AdapterStatement(bindings: map<string, JsValue>, code: string, fn: nat, g: Codec.Byte, b: Codec.Byte,
                         args: seq<string>, env: (nat, seq<JsValue>) -> JsValue)
    requires Plain([code] + args)
    requires GetBinding(bindings, code) == Success(Function(ParamAdapter(fn, g, b)))
    requires Resolve(bindings, args).Success?
    ensures Invocations(Scan(bindings, [WHITE, code] + args + [BLACK]).state.calls) == [Invocation(fn, [Num(g), Num(b)])]
    ensures Run(bindings, [WHITE, code] + args + [BLACK], true, env) == Success(Results([Undefined]))
  {
    var body := [code] + args;
    var stmt := Call(ParamAdapter(fn, g, b), Resolve(bindings, args).value);
    assert SegmentCall(bindings, Segment([], body)) == Success(stmt) by {
      var rest := Resolve(bindings, args).value;
      assert body[1..] == args;
      assert Resolve(bindings, body) == Success([Function(ParamAdapter(fn, g, b))] + rest);
      assert ([Function(ParamAdapter(fn, g, b))] + rest)[1..] == rest;
    }
    OneStatement(bindings, body);
    assert [WHITE] + body + [BLACK] == [WHITE, code] + args + [BLACK];
    ScanOfRender(bindings, [Segment([], body)], true, env);
    assert Invocations([stmt]) == Invoked(stmt) by { assert [stmt][..0] == []; }
    assert Outcomes([stmt], env) == [Undefined] by { assert Outcomes([stmt], env)[0] == Undefined; }
  }

  /** End to end: after `createParamFn(r, fn)`, the statement led by `rgbToHex(r, g, b)` runs `fn(g, b)`. */
  lemma ParamFnStatement(s: State, r: Codec.Byte, fn: nat, g: Codec.Byte, b: Codec.Byte,
                         args: seq<string>, env: (nat, seq<JsValue>) -> JsValue)
    requires r !in s.rValues && Codec.Rgb(r, g, b) != Codec.Rgb(0, 0, 0)
    requires Plain(args)
    requires Resolve(s.CreateParamFn(r, fn).state.bindings, args).Success?
    ensures var bindings := s.CreateParamFn(r, fn).state.bindings;
      var colors := [WHITE, Codec.RgbToHex(Codec.Rgb(r, g, b))] + args + [BLACK];
      && Invocations(Scan(bindings, colors).state.calls) == [Invocation(fn, [Num(g), Num(b)])]
      && Run(bindings, colors, true, env) == Success(Results([Undefined]))
  {
    var code := Codec.RgbToHex(Codec.Rgb(r, g, b));
    CreateParamFnInstalls(s, r, fn, g, b);
    NotSentinel(Codec.Rgb(r, g, b));
    var body := [code] + args;
    assert Plain(body) by {
      forall i | 0 <= i < |body| ensures body[i] != WHITE && body[i] != BLACK {
        if i > 0 { assert body[i] == args[i - 1]; }
      }
    }
    AdapterStatement(s.CreateParamFn(r, fn).state.bindings, code, fn, g, b, args, env);
  }
}
