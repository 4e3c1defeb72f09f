/** How guarded rules behave inside a chain. */
module ChainEval {
  import opened Bytes
  import opened Rules
  import opened Nft
  import opened Compile
  import opened CompileMatch

  /** A test followed by an action runs the action or breaks. */
  lemma ExecGuarded(env: Env, sets: map<SetKey, SetBody>, here: Chain, m: seq<Expr>, cond: bool, tail: seq<Expr>, st: St)
    requires env.pkt.Valid() && Tests(env, sets, m, cond)
    ensures !cond ==> Exec(env, sets, here, m + tail, st, []) == Break(st)
    ensures cond ==> exists reg :: Exec(env, sets, here, m + tail, st, []) == Exec(env, sets, here, tail, st, reg)
  {
    ExecConcat(env, sets, here, m, tail, st, []);
    var f := Exec(env, sets, here, m, st, []);
    if cond {
      assert Exec(env, sets, here, m + tail, st, []) == Exec(env, sets, here, tail, st, f.reg);
    }
  }

  lemma ExecAct(env: Env, sets: map<SetKey, SetBody>, here: Chain, last: Expr, st: St, reg: seq<Byte>)
    requires env.pkt.Valid()
    ensures Exec(env, sets, here, [Counter, last], st, reg) == Exec(env, sets, here, [last], st, reg)
    ensures last.Decide? ==> Exec(env, sets, here, [Counter, last], st, reg) == Act(Stop(last.v), st)
    ensures last.Jump? ==> Exec(env, sets, here, [Counter, last], st, reg) == Act(Call(last.chain), st)
    ensures last.Return? ==> Exec(env, sets, here, [Counter, last], st, reg) == Act(Back, st)
  {
    assert [Counter, last][1..] == [last];
  }

  /** A guarded verdict decides exactly when its guard holds. */
  lemma EvalVerdict(env: Env, P: Program, here: Chain, m: seq<Expr>, cond: bool, v: Verdict,
                    rest: seq<seq<Expr>>, st: St, depth: nat)
    requires env.pkt.Valid() && Tests(env, P.sets, m, cond)
    ensures Eval(env, P, here, [m + [Counter, Decide(v)]] + rest, st, depth)
         == if cond then Decided(v, st) else Eval(env, P, here, rest, st, depth)
  {
    ExecGuarded(env, P.sets, here, m, cond, [Counter, Decide(v)], st);
    if cond {
      var reg :| Exec(env, P.sets, here, m + [Counter, Decide(v)], st, []) == Exec(env, P.sets, here, [Counter, Decide(v)], st, reg);
      ExecAct(env, P.sets, here, Decide(v), st, reg);
    }
    assert ([m + [Counter, Decide(v)]] + rest)[1..] == rest;
  }

  /** A guarded jump calls the chain exactly when its guard holds. */
  lemma EvalJump(env: Env, P: Program, here: Chain, m: seq<Expr>, cond: bool, c: Chain,
                 rest: seq<seq<Expr>>, st: St, depth: nat)
    requires env.pkt.Valid() && Tests(env, P.sets, m, cond) && depth > 0
    ensures Eval(env, P, here, [m + [Counter, Jump(c)]] + rest, st, depth)
         == if !cond then Eval(env, P, here, rest, st, depth)
            else match Eval(env, P, c, P.chains(c), st, depth - 1)
              case Fell(st') => Eval(env, P, here, rest, st', depth)
              case other => other
  {
    ExecGuarded(env, P.sets, here, m, cond, [Counter, Jump(c)], st);
    if cond {
      var reg :| Exec(env, P.sets, here, m + [Counter, Jump(c)], st, []) == Exec(env, P.sets, here, [Counter, Jump(c)], st, reg);
      ExecAct(env, P.sets, here, Jump(c), st, reg);
    }
    assert ([m + [Counter, Jump(c)]] + rest)[1..] == rest;
  }

  /** A guarded return ends the chain exactly when its guard holds. */
  lemma EvalReturn(env: Env, P: Program, here: Chain, m: seq<Expr>, cond: bool,
                   rest: seq<seq<Expr>>, st: St, depth: nat)
    requires env.pkt.Valid() && Tests(env, P.sets, m, cond)
    ensures Eval(env, P, here, [m + [Counter, Return]] + rest, st, depth)
         == if cond then Fell(st) else Eval(env, P, here, rest, st, depth)
  {
    ExecGuarded(env, P.sets, here, m, cond, [Counter, Return], st);
    if cond {
      var reg :| Exec(env, P.sets, here, m + [Counter, Return], st, []) == Exec(env, P.sets, here, [Counter, Return], st, reg);
      ExecAct(env, P.sets, here, Return, st, reg);
    }
    assert ([m + [Counter, Return]] + rest)[1..] == rest;
  }

  lemma EvalPlainJump(env: Env, P: Program, here: Chain, c: Chain, rest: seq<seq<Expr>>, st: St, depth: nat)
    requires env.pkt.Valid() && depth > 0
    ensures Eval(env, P, here, [[Counter, Jump(c)]] + rest, st, depth)
         == match Eval(env, P, c, P.chains(c), st, depth - 1)
            case Fell(st') => Eval(env, P, here, rest, st', depth)
            case other => other
  {
    TestsNone(env, P.sets);
    assert [] + [Counter, Jump(c)] == [Counter, Jump(c)];
    EvalJump(env, P, here, [], true, c, rest, st, depth);
  }

  lemma EvalPlainVerdict(env: Env, P: Program, here: Chain, v: Verdict, rest: seq<seq<Expr>>, st: St, depth: nat)
    requires env.pkt.Valid()
    ensures Eval(env, P, here, [[Counter, Decide(v)]] + rest, st, depth) == Decided(v, st)
  {
    TestsNone(env, P.sets);
    assert [] + [Counter, Decide(v)] == [Counter, Decide(v)];
    EvalVerdict(env, P, here, [], true, v, rest, st, depth);
  }

  // ---- chains that only log ------------------------------------------------------------

  predicate QuietRule(es: seq<Expr>) {
    forall i :: 0 <= i < |es| ==> !es[i].Decide? && !es[i].Jump?
  }

  predicate Quiet(rules: seq<seq<Expr>>) {
    forall i :: 0 <= i < |rules| ==> QuietRule(rules[i])
  }

  lemma {:induction false} ExecQuiet(env: Env, sets: map<SetKey, SetBody>, here: Chain, es: seq<Expr>, st: St, reg: seq<Byte>)
    requires env.pkt.Valid() && QuietRule(es)
    ensures var f := Exec(env, sets, here, es, st, reg); f.Act? ==> f.a == Back
  {
    if es != [] {
      match ExecOne(env, sets, here, es[0], st, reg) {
        case Go(st', reg') => ExecQuiet(env, sets, here, es[1..], st', reg');
        case _ =>
      }
    }
  }

  /** A chain without verdicts and jumps always falls through. */
  lemma {:induction false} EvalQuiet(env: Env, P: Program, here: Chain, rules: seq<seq<Expr>>, st: St, depth: nat)
    requires env.pkt.Valid() && Quiet(rules)
    ensures Eval(env, P, here, rules, st, depth).Fell?
  {
    if rules != [] {
      ExecQuiet(env, P.sets, here, rules[0], st, []);
      match Exec(env, P.sets, here, rules[0], st, []) {
        case Go(st', _) => EvalQuiet(env, P, here, rules[1..], st', depth);
        case Break(st') => EvalQuiet(env, P, here, rules[1..], st', depth);
        case Act(_, _) =>
      }
    }
  }

  lemma QuietConcat(a: seq<seq<Expr>>, b: seq<seq<Expr>>)
    requires Quiet(a) && Quiet(b)
    ensures Quiet(a + b)
  {
  }

  /** Opaque accepts: the packet is accepted iff one of them holds. */
  predicate SomeHolds(env: Env, tags: seq<nat>) {
    exists i :: 0 <= i < |tags| && env.holds(tags[i])
  }

  lemma TestsOpaque(env: Env, sets: map<SetKey, SetBody>, tag: nat)
    requires env.pkt.Valid()
    ensures Tests(env, sets, [Opaque(tag)], env.holds(tag))
  {
    forall here, st, reg ensures
      Exec(env, sets, here, [Opaque(tag)], st, reg) == Test(env.holds(tag), st, reg)
    {
      assert [Opaque(tag)][1..] == [];
    }
  }

  lemma {:induction false} EvalOpaqueAccepts(env: Env, P: Program, here: Chain, tags: seq<nat>,
                                             rest: seq<seq<Expr>>, st: St, depth: nat)
    requires env.pkt.Valid()
    ensures Eval(env, P, here, OpaqueAccepts(tags) + rest, st, depth)
         == if SomeHolds(env, tags) then Decided(Accept, st) else Eval(env, P, here, rest, st, depth)
  {
    if tags == [] {
      assert OpaqueAccepts(tags) + rest == rest;
    } else {
      var rest' := OpaqueAccepts(tags[1..]) + rest;
      TestsOpaque(env, P.sets, tags[0]);
      EvalVerdict(env, P, here, [Opaque(tags[0])], env.holds(tags[0]), Accept, rest', st, depth);
      assert [Opaque(tags[0])] + [Counter, Decide(Accept)] == [Opaque(tags[0]), Counter, Decide(Accept)];
      assert OpaqueAccepts(tags) + rest == [[Opaque(tags[0]), Counter, Decide(Accept)]] + rest';
      EvalOpaqueAccepts(env, P, here, tags[1..], rest, st, depth);
      HoldsStep(env, tags);
    }
  }

  lemma HoldsStep(env: Env, tags: seq<nat>)
    requires tags != []
    ensures SomeHolds(env, tags) <==> env.holds(tags[0]) || SomeHolds(env, tags[1..])
  {
    assert forall i :: 0 < i < |tags| ==> tags[i] == tags[1..][i - 1];
    assert forall i :: 0 <= i < |tags[1..]| ==> tags[1..][i] == tags[i + 1];
  }

  /** Opaque jumps to a chain that always decides v: the packet gets v iff one of them holds. */
  lemma {:induction false} EvalOpaqueJumps(env: Env, P: Program, here: Chain, tags: seq<nat>, c: Chain, v: Verdict, st: St, depth: nat)
    requires env.pkt.Valid() && depth > 0
    requires P.chains(c) == [[Counter, Decide(v)]]
    ensures Eval(env, P, here, OpaqueJumps(tags, c), st, depth)
         == if SomeHolds(env, tags) then Decided(v, st) else Fell(st)
  {
    if tags != [] {
      var rest := OpaqueJumps(tags[1..], c);
      TestsOpaque(env, P.sets, tags[0]);
      EvalJump(env, P, here, [Opaque(tags[0])], env.holds(tags[0]), c, rest, st, depth);
      assert [Opaque(tags[0])] + [Counter, Jump(c)] == [Opaque(tags[0]), Counter, Jump(c)];
      assert OpaqueJumps(tags, c) == [[Opaque(tags[0]), Counter, Jump(c)]] + rest;
      EvalPlainVerdict(env, P, c, v, [], st, depth - 1);
      assert [[Counter, Decide(v)]] + [] == [[Counter, Decide(v)]];
      EvalOpaqueJumps(env, P, here, tags[1..], c, v, st, depth);
      HoldsStep(env, tags);
    }
  }
}
