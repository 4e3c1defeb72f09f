/** The rules of a compile in the order they are added, and how that order splits by chain. */
module Emission {
  import opened Intervals
  import opened Rules
  import opened Store
  import opened Nft
  import opened Compile
  import opened CompileUser
  import opened Memory

  /** The lists added to one chain, in order. */
  function ChainOf(e: Emitted, c: Chain): seq<seq<Expr>> {
    if e == [] then [] else (if e[0].0 == c then [e[0].1] else []) + ChainOf(e[1..], c)
  }

  lemma {:induction false} ChainOfConcat(a: Emitted, b: Emitted, c: Chain)
    ensures ChainOf(a + b, c) == ChainOf(a, c) + ChainOf(b, c)
  {
    if a == [] {
      assert a + b == b;
    } else {
      assert (a + b)[1..] == a[1..] + b;
      ChainOfConcat(a[1..], b, c);
      Assoc(if a[0].0 == c then [a[0].1] else [], ChainOf(a[1..], c), ChainOf(b, c));
    }
  }

  /** A whole list added to one chain. */
  function Tagged(c: Chain, rules: seq<seq<Expr>>): Emitted {
    if rules == [] then [] else [(c, rules[0])] + Tagged(c, rules[1..])
  }

  lemma {:induction false} TaggedChain(c: Chain, rules: seq<seq<Expr>>, d: Chain)
    ensures ChainOf(Tagged(c, rules), d) == if c == d then rules else []
  {
    if rules != [] {
      TaggedChain(c, rules[1..], d);
      assert Tagged(c, rules)[1..] == Tagged(c, rules[1..]);
    }
  }

  lemma {:induction false} TaggedSnoc(c: Chain, rules: seq<seq<Expr>>, r: seq<Expr>)
    ensures Tagged(c, rules + [r]) == Tagged(c, rules) + [(c, r)]
  {
    if rules == [] {
      assert (rules + [r])[1..] == [];
    } else {
      assert (rules + [r])[1..] == rules[1..] + [r];
      TaggedSnoc(c, rules[1..], r);
    }
  }

  // ---- one rule -----------------------------------------------------------------------

  function LogEmits(r: Rule, m: seq<Expr>): Emitted {
    if r.log == LogNone then []
    else [(UserLogging(r.dir), m + (NewOnly(r) + [LIMIT3, Log(LogPrefix(r.action))])),
          (UserLogging(r.dir), m + (NewOnly(r) + [Counter, Return])),
          (User(r.dir), m + [Counter, Jump(UserLogging(r.dir))])]
  }

  function MeterExprs(r: Rule, proto: Proto, v6: bool): seq<Expr> {
    CtExprs(CT_NEW) + LimitKeyExprs(r, proto, v6)
  }

  function MeterTail(r: Rule, v6: bool): seq<Expr> {
    [Dynset(LimitSet(LimitText(r, v6))), Counter, Jump(UserLimit)]
  }

  function ActionEmits(r: Rule, proto: Proto, v6: bool, m: seq<Expr>): Emitted {
    if r.action != Limit then [(User(r.dir), m + VerdictExprs(r.action))]
    else [(User(r.dir), m + (MeterExprs(r, proto, v6) + MeterTail(r, v6))),
          (User(r.dir), m + [Counter, Jump(UserLimitAccept)])]
  }

  function VariantEmits(r: Rule, proto: Proto, v6: bool, a: Alloc): Emitted {
    LogEmits(r, MatchExprs(r, proto, v6, a)) + ActionEmits(r, proto, v6, MatchExprs(r, proto, v6, a))
  }

  lemma LogChain(r: Rule, m: seq<Expr>, c: Chain)
    ensures ChainOf(LogEmits(r, m), c)
         == (if c == User(r.dir) then LogJump(r, m) else if c == UserLogging(r.dir) then LogEntries(r, m) else [])
  {
    if r.log != LogNone {
      var e := LogEmits(r, m);
      assert e == [e[0]] + ([e[1]] + [e[2]]);
      ChainOfConcat([e[0]], [e[1]] + [e[2]], c);
      ChainOfConcat([e[1]], [e[2]], c);
      ChainOfOne(e[0], c);
      ChainOfOne(e[1], c);
      ChainOfOne(e[2], c);
      assert m + (NewOnly(r) + [LIMIT3, Log(LogPrefix(r.action))]) == m + NewOnly(r) + [LIMIT3, Log(LogPrefix(r.action))];
      assert m + (NewOnly(r) + [Counter, Return]) == m + NewOnly(r) + [Counter, Return];
    }
  }

  lemma ChainOfOne(e: (Chain, seq<Expr>), c: Chain)
    ensures ChainOf([e], c) == if e.0 == c then [e.1] else []
  {
    assert [e][1..] == [];
  }

  lemma MeterShape(m: seq<Expr>, x: seq<Expr>, y: seq<Expr>, z: seq<Expr>)
    ensures m + ((x + y) + z) == m + x + y + z
  {
  }

  lemma ActionChain(r: Rule, proto: Proto, v6: bool, m: seq<Expr>, c: Chain)
    ensures ChainOf(ActionEmits(r, proto, v6, m), c) == if c == User(r.dir) then ActionRules(r, proto, v6, m) else []
  {
    var e := ActionEmits(r, proto, v6, m);
    if r.action == Limit {
      MeterShape(m, CtExprs(CT_NEW), LimitKeyExprs(r, proto, v6), MeterTail(r, v6));
      assert e == [e[0]] + [e[1]];
      ChainOfConcat([e[0]], [e[1]], c);
      ChainOfOne(e[0], c);
      ChainOfOne(e[1], c);
    }
  }

  /** What a variant adds to each chain is what the specification lists there. */
  lemma VariantChain(r: Rule, proto: Proto, v6: bool, a: Alloc, c: Chain)
    ensures ChainOf(VariantEmits(r, proto, v6, a), c) == VariantRules(r, proto, v6, a, c)
  {
    var m := MatchExprs(r, proto, v6, a);
    ChainOfConcat(LogEmits(r, m), ActionEmits(r, proto, v6, m), c);
    LogChain(r, m, c);
    ActionChain(r, proto, v6, m, c);
  }

  /** The first i variants of a rule. */
  function EmitsUpTo(r: Rule, v6: bool, a: Alloc, i: nat): Emitted
    requires i <= |Variants(r)|
  {
    if i == 0 then []
    else EmitsUpTo(r, v6, a, i - 1) + VariantEmits(r, Variants(r)[i - 1], v6, AllocUpTo(r, v6, a, i - 1))
  }

  function AllocUpTo(r: Rule, v6: bool, a: Alloc, i: nat): Alloc
    requires i <= |Variants(r)|
  {
    if i == 0 then a else VariantAlloc(r, Variants(r)[i - 1], v6, AllocUpTo(r, v6, a, i - 1))
  }

  function RuleEmits(r: Rule, v6: bool, now: int, a: Alloc): Emitted {
    if !r.Active(now) then [] else EmitsUpTo(r, v6, a, |Variants(r)|)
  }

  lemma RuleAllocUpTo(r: Rule, v6: bool, now: int, a: Alloc)
    requires r.Active(now)
    ensures AllocUpTo(r, v6, a, |Variants(r)|) == RuleAlloc(r, v6, now, a)
  {
    assert AllocUpTo(r, v6, a, 1) == VariantAlloc(r, Variants(r)[0], v6, a);
  }

  lemma RuleChain(r: Rule, v6: bool, now: int, a: Alloc, c: Chain)
    ensures ChainOf(RuleEmits(r, v6, now, a), c) == RuleRules(r, v6, now, a, c)
  {
    if r.Active(now) {
      var v := Variants(r);
      var first := VariantEmits(r, v[0], v6, a);
      assert EmitsUpTo(r, v6, a, 1) == [] + first == first;
      VariantChain(r, v[0], v6, a, c);
      if |v| == 2 {
        var a1 := VariantAlloc(r, v[0], v6, a);
        assert AllocUpTo(r, v6, a, 1) == a1;
        ChainOfConcat(first, VariantEmits(r, v[1], v6, a1), c);
        VariantChain(r, v[1], v6, a1, c);
      }
    }
  }

  function ListEmits(rules: seq<Rule>, v6: bool, now: int, a: Alloc): Emitted {
    if rules == [] then []
    else RuleEmits(rules[0], v6, now, a) + ListEmits(rules[1..], v6, now, RuleAlloc(rules[0], v6, now, a))
  }

  lemma {:induction false} ListChain(rules: seq<Rule>, v6: bool, now: int, a: Alloc, c: Chain)
    ensures ChainOf(ListEmits(rules, v6, now, a), c) == ListRules(rules, v6, now, a, c)
  {
    if rules != [] {
      var a1 := RuleAlloc(rules[0], v6, now, a);
      RuleChain(rules[0], v6, now, a, c);
      ListChain(rules[1..], v6, now, a1, c);
      ChainOfConcat(RuleEmits(rules[0], v6, now, a), ListEmits(rules[1..], v6, now, a1), c);
    }
  }

  /** Peels rule i off the part of the list that is still to do. */
  lemma ListStep(rules: seq<Rule>, i: nat, v6: bool, now: int, a: Alloc, done: Emitted)
    requires i < |rules|
    ensures done + ListEmits(rules[i..], v6, now, a)
         == (done + RuleEmits(rules[i], v6, now, a)) + ListEmits(rules[i + 1..], v6, now, RuleAlloc(rules[i], v6, now, a))
    ensures ListAlloc(rules[i..], v6, now, a) == ListAlloc(rules[i + 1..], v6, now, RuleAlloc(rules[i], v6, now, a))
  {
    assert rules[i..][1..] == rules[i + 1..];
    var x, y := RuleEmits(rules[i], v6, now, a), ListEmits(rules[i + 1..], v6, now, RuleAlloc(rules[i], v6, now, a));
    assert done + (x + y) == (done + x) + y;
  }

  // ---- the whole program ------------------------------------------------------------

  function DirNumber(d: Direction): nat {
    match d
    case In => 0
    case Out => 1
    case Routed => 2
  }

  function DirAt(i: nat): Direction {
    if i == 0 then In else if i == 1 then Out else Routed
  }

  const CHAINS: nat := 36

  /** Chains are filled one after the other; only the order within a chain matters. */
  function ChainNumber(c: Chain): (n: nat)
    ensures n < CHAINS
  {
    match c
    case Base(d) => DirNumber(d)
    case Before(d) => 3 + DirNumber(d)
    case After(d) => 6 + DirNumber(d)
    case RejectChain(d) => 9 + DirNumber(d)
    case Track(d) => 12 + DirNumber(d)
    case SkipToPolicy(d) => 15 + DirNumber(d)
    case UserLogging(d) => 18 + DirNumber(d)
    case AfterLogging(d) => 21 + DirNumber(d)
    case BeforeLogging(d) => 24 + DirNumber(d)
    case User(d) => 27 + DirNumber(d)
    case NotLocal => 30
    case LogDeny => 31
    case LogAllow => 32
    case UserLimit => 33
    case UserLimitAccept => 34
    case UserEgress => 35
  }

  function ChainAt(i: nat): Chain {
    if i < 3 then Base(DirAt(i))
    else if i < 6 then Before(DirAt(i - 3))
    else if i < 9 then After(DirAt(i - 6))
    else if i < 12 then RejectChain(DirAt(i - 9))
    else if i < 15 then Track(DirAt(i - 12))
    else if i < 18 then SkipToPolicy(DirAt(i - 15))
    else if i < 21 then UserLogging(DirAt(i - 18))
    else if i < 24 then AfterLogging(DirAt(i - 21))
    else if i < 27 then BeforeLogging(DirAt(i - 24))
    else if i < 30 then User(DirAt(i - 27))
    else if i == 30 then NotLocal
    else if i == 31 then LogDeny
    else if i == 32 then LogAllow
    else if i == 33 then UserLimit
    else if i == 34 then UserLimitAccept
    else UserEgress
  }

  lemma ChainNumbers(i: nat, c: Chain)
    requires i < CHAINS
    ensures ChainNumber(c) == i <==> ChainAt(i) == c
  {
  }

  /** What a chain holds before any user rule. */
  function FixedContents(st: State, etc: Defaults, now: int, fixed: FixedRules, c: Chain, sort: Sorting): seq<seq<Expr>> {
    match c
    case User(_) => []
    case UserLogging(_) => UserLoggingHead(EffectiveLevel(st))
    case _ => ChainContents(st, etc, now, fixed, c, sort)
  }

  function FixedEmits(contents: Chain -> seq<seq<Expr>>, from: nat): Emitted
    requires from <= CHAINS
    decreases CHAINS - from
  {
    if from == CHAINS then []
    else Tagged(ChainAt(from), contents(ChainAt(from))) + FixedEmits(contents, from + 1)
  }

  lemma {:induction false} FixedChain(contents: Chain -> seq<seq<Expr>>, from: nat, c: Chain)
    requires from <= CHAINS
    ensures ChainOf(FixedEmits(contents, from), c) == if ChainNumber(c) >= from then contents(c) else []
    decreases CHAINS - from
  {
    if from < CHAINS {
      FixedChain(contents, from + 1, c);
      TaggedChain(ChainAt(from), contents(ChainAt(from)), c);
      ChainOfConcat(Tagged(ChainAt(from), contents(ChainAt(from))), FixedEmits(contents, from + 1), c);
      ChainNumbers(from, c);
    }
  }

  function UserEmits(st: State, now: int, sort: Sorting): Emitted {
    var a := BaseAlloc(st, now, sort);
    ListEmits(st.rules4, false, now, a) + ListEmits(st.rules6, true, now, ListAlloc(st.rules4, false, now, a))
  }

  lemma UserChain(st: State, now: int, c: Chain, sort: Sorting)
    ensures ChainOf(UserEmits(st, now, sort), c) == UserRules(st, now, c, sort)
  {
    var a := BaseAlloc(st, now, sort);
    var a4 := ListAlloc(st.rules4, false, now, a);
    ListChain(st.rules4, false, now, a, c);
    ListChain(st.rules6, true, now, a4, c);
    ChainOfConcat(ListEmits(st.rules4, false, now, a), ListEmits(st.rules6, true, now, a4), c);
  }

  /** User rules add nothing outside the user chains. */
  lemma {:induction false} ListElsewhere(rules: seq<Rule>, v6: bool, now: int, a: Alloc, c: Chain)
    requires !c.User? && !c.UserLogging?
    ensures ListRules(rules, v6, now, a, c) == []
  {
    if rules != [] {
      ListElsewhere(rules[1..], v6, now, RuleAlloc(rules[0], v6, now, a), c);
    }
  }

  lemma UserElsewhere(st: State, now: int, c: Chain, sort: Sorting)
    requires !c.User? && !c.UserLogging?
    ensures UserRules(st, now, c, sort) == []
  {
    var a := BaseAlloc(st, now, sort);
    ListElsewhere(st.rules4, false, now, a, c);
    ListElsewhere(st.rules6, true, now, ListAlloc(st.rules4, false, now, a), c);
  }

  lemma ContentsSplit(st: State, etc: Defaults, now: int, fixed: FixedRules, c: Chain, sort: Sorting)
    ensures FixedContents(st, etc, now, fixed, c, sort) + UserRules(st, now, c, sort) == ChainContents(st, etc, now, fixed, c, sort)
  {
    if c.User? {
      UserOnly(st, etc, now, fixed, c, sort);
    } else if !c.UserLogging? {
      FixedElsewhere(st, etc, now, fixed, c, sort);
      UserElsewhere(st, now, c, sort);
      NothingMore(ChainContents(st, etc, now, fixed, c, sort));
    }
  }

  lemma UserOnly(st: State, etc: Defaults, now: int, fixed: FixedRules, c: Chain, sort: Sorting)
    requires c.User?
    ensures FixedContents(st, etc, now, fixed, c, sort) + UserRules(st, now, c, sort) == ChainContents(st, etc, now, fixed, c, sort)
  {
    NothingAhead(UserRules(st, now, c, sort));
  }

  lemma NothingAhead(s: seq<seq<Expr>>)
    ensures [] + s == s
  {
  }

  lemma FixedElsewhere(st: State, etc: Defaults, now: int, fixed: FixedRules, c: Chain, sort: Sorting)
    requires !c.User? && !c.UserLogging?
    ensures FixedContents(st, etc, now, fixed, c, sort) == ChainContents(st, etc, now, fixed, c, sort)
  {
  }

  lemma NothingMore(s: seq<seq<Expr>>)
    ensures s + [] == s
  {
  }

  function ProgramEmits(st: State, etc: Defaults, now: int, fixed: FixedRules, sort: Sorting): Emitted {
    FixedEmits(c => FixedContents(st, etc, now, fixed, c, sort), 0) + UserEmits(st, now, sort)
  }

  /** Split by chain, the whole emission is the specified program. */
  lemma ProgramChain(st: State, etc: Defaults, now: int, fixed: FixedRules, c: Chain, sort: Sorting)
    ensures ChainOf(ProgramEmits(st, etc, now, fixed, sort), c) == ChainContents(st, etc, now, fixed, c, sort)
  {
    var contents := c => FixedContents(st, etc, now, fixed, c, sort);
    ContentsSplit(st, etc, now, fixed, c, sort);
    FixedChain(contents, 0, c);
    UserChain(st, now, c, sort);
    ChainOfConcat(FixedEmits(contents, 0), UserEmits(st, now, sort), c);
  }
}
