/** The compiled object graph and the machine that runs it: rules are lists of register
    expressions, chains are called by jump, and the base chain's policy decides the rest. */
module Nft {
  import opened Bytes
  import opened Cidr
  import opened Rules

  datatype Chain =
    | Base(d: Direction) | BeforeLogging(d: Direction) | Before(d: Direction) | User(d: Direction)
    | After(d: Direction) | AfterLogging(d: Direction) | UserLogging(d: Direction)
    | RejectChain(d: Direction) | Track(d: Direction) | SkipToPolicy(d: Direction)
    | NotLocal | LogDeny | LogAllow | UserLimit | UserLimitAccept | UserEgress

  datatype MetaKey = NfProto | L4Proto | IifName | OifName

  datatype HeaderBase = NetworkHeader | TransportHeader

  /** Sets are looked up by kernel name; anonymous ones are named after their id. */
  datatype SetKey = ThreatBans(v6: bool) | NamedSet(text: string) | LimitSet(text: string) | AnonSet(id: nat)

  datatype Verdict = Accept | Drop | Refuse

  /** Comparisons read register 1. Opaque stands for a fixed match whose details are not modelled. */
  datatype Expr =
    | Meta(field: MetaKey)
    | Payload(reg: nat, base: HeaderBase, off: nat, len: nat)
    | Ct | FibAddrType | RoutingType
    | Bitwise(mask: seq<Byte>, xor: seq<Byte>)
    | Cmp(eq: bool, data: seq<Byte>)
    | Range(lo: seq<Byte>, hi: seq<Byte>)
    | Lookup(setKey: SetKey)
    | Immediate(reg: nat, data: seq<Byte>)
    | Dynset(setKey: SetKey)
    | Opaque(tag: nat)
    | RateLimit(perMinute: nat, burst: nat)
    | Log(prefix: string)
    | Counter
    | Decide(v: Verdict)
    | Return
    | Jump(chain: Chain)

  /** A set element; interval sets alternate starts and end-exclusive markers, and an
      all-zero end marker means the top of the key space. */
  datatype Elem = Elem(key: seq<Byte>, intervalEnd: bool)

  datatype SetBody = SetBody(elems: seq<Elem>, interval: bool)

  /** A set as the kernel is asked to create it: its name, the length of its keys, its elements. */
  datatype SetObject = SetObject(key: SetKey, keyLen: nat, body: SetBody)

  /** What every chain holds, in order, the contents of the sets by name, and the sets in the
      order they are handed to the kernel. */
  datatype Program = Program(chains: Chain -> seq<seq<Expr>>, sets: map<SetKey, SetBody>, batch: seq<SetObject>)

  /** The answers of the stateful parts: the i-th limiter consulted, each meter, each opaque match. */
  datatype Env = Env(pkt: Packet, rate: nat -> bool, over: SetKey -> bool, holds: nat -> bool)

  datatype St = St(tick: nat, logs: seq<(Chain, string)>)

  // ---- sets ----------------------------------------------------------------------

  predicate PairHas(start: Elem, end: Elem, key: seq<Byte>) {
    && !start.intervalEnd && end.intervalEnd && |key| == |start.key|
    && Val(start.key) <= Val(key)
    && (Val(end.key) == 0 || Val(key) < Val(end.key))
  }

  predicate SetHas(s: SetBody, key: seq<Byte>) {
    if s.interval then exists i :: 0 < i < |s.elems| && PairHas(s.elems[i - 1], s.elems[i], key)
    else exists i :: 0 <= i < |s.elems| && s.elems[i].key == key
  }

  // ---- loads -----------------------------------------------------------------------

  function Pad16(n: Name): (b: seq<Byte>)
    requires |n| <= 16
    ensures |b| == 16
  {
    n + Zeros(16 - |n|)
  }

  function Port(p: nat): seq<Byte> {
    [p / 256 % 256, p % 256]
  }

  function CtBit(c: CtState): Byte {
    match c
    case CtInvalid => 1
    case CtEstablished => 2
    case CtRelated => 4
    case CtNew => 8
    case CtUntracked => 64
  }

  function LoadMeta(p: Packet, k: MetaKey): seq<Byte>
    requires p.Valid()
  {
    match k
    case NfProto => [if p.v6 then 10 else 2]
    case L4Proto => [p.l4]
    case IifName => Pad16(p.iif)
    case OifName => Pad16(p.oif)
  }

  /** The header fields compiled rules load. A load outside the packet breaks the rule. */
  function LoadPayload(p: Packet, base: HeaderBase, off: nat, len: nat): Option<seq<Byte>> {
    if base == NetworkHeader then
      if len == 4 && !p.v6 && off == 12 then Some(p.src)
      else if len == 4 && !p.v6 && off == 16 then Some(p.dst)
      else if len == 16 && p.v6 && off == 8 then Some(p.src)
      else if len == 16 && p.v6 && off == 24 then Some(p.dst)
      else None
    else if IsPorted(p.l4) then
      if len == 2 && off == 0 then Some(Port(p.sport))
      else if len == 2 && off == 2 then Some(Port(p.dport))
      else None
    else if len == 1 && off == 0 && (p.l4 == 1 || p.l4 == 58) then Some([p.icmpType])
    else None
  }

  // ---- one rule ----------------------------------------------------------------------

  datatype Action = Stop(v: Verdict) | Back | Call(chain: Chain)

  /** After one expression: on with the next, off to the next rule, or leave the chain. */
  datatype Flow = Go(st: St, reg: seq<Byte>) | Break(st: St) | Act(a: Action, st: St)

  function Test(b: bool, st: St, reg: seq<Byte>): Flow {
    if b then Go(st, reg) else Break(st)
  }

  function ExecOne(env: Env, sets: map<SetKey, SetBody>, here: Chain, e: Expr, st: St, reg: seq<Byte>): Flow
    requires env.pkt.Valid()
  {
    var p := env.pkt;
    match e
    case Meta(k) => Go(st, LoadMeta(p, k))
    case Payload(r, base, off, len) =>
      (match LoadPayload(p, base, off, len)
       case None => Break(st)
       case Some(v) => Go(st, if r == 1 then v else reg))
    case Ct => Go(st, [CtBit(p.ct), 0, 0, 0])
    case FibAddrType => Go(st, [p.addrType, 0, 0, 0])
    case RoutingType => if p.v6 && p.rh0 then Go(st, [0]) else Break(st)
    case Bitwise(mask, xor) =>
      if |reg| == |mask| == |xor| then Go(st, XorBytes(AndBytes(reg, mask), xor)) else Break(st)
    case Cmp(eq, data) => Test((reg == data) == eq, st, reg)
    case Range(lo, hi) => Test(|reg| == |lo| && Val(lo) <= Val(reg) <= Val(hi), st, reg)
    case Lookup(key) => Test(key in sets && SetHas(sets[key], reg), st, reg)
    case Immediate(r, data) => Go(st, if r == 1 then data else reg)
    case Dynset(key) => Test(env.over(key), st, reg)
    case Opaque(tag) => Test(env.holds(tag), st, reg)
    case RateLimit(_, _) => Test(env.rate(st.tick), st.(tick := st.tick + 1), reg)
    case Log(prefix) => Go(st.(logs := st.logs + [(here, prefix)]), reg)
    case Counter => Go(st, reg)
    case Decide(v) => Act(Stop(v), st)
    case Return => Act(Back, st)
    case Jump(c) => Act(Call(c), st)
  }

  function Exec(env: Env, sets: map<SetKey, SetBody>, here: Chain, es: seq<Expr>, st: St, reg: seq<Byte>): Flow
    requires env.pkt.Valid()
  {
    if es == [] then Go(st, reg)
    else match ExecOne(env, sets, here, es[0], st, reg)
      case Go(st', reg') => Exec(env, sets, here, es[1..], st', reg')
      case other => other
  }

  lemma {:induction false} ExecConcat(env: Env, sets: map<SetKey, SetBody>, here: Chain,
                                      a: seq<Expr>, b: seq<Expr>, st: St, reg: seq<Byte>)
    requires env.pkt.Valid()
    ensures Exec(env, sets, here, a + b, st, reg) ==
      match Exec(env, sets, here, a, st, reg)
      case Go(st', reg') => Exec(env, sets, here, b, st', reg')
      case other => other
  {
    if a == [] {
      assert a + b == b;
    } else {
      assert (a + b)[0] == a[0] && (a + b)[1..] == a[1..] + b;
      match ExecOne(env, sets, here, a[0], st, reg) {
        case Go(st', reg') => ExecConcat(env, sets, here, a[1..], b, st', reg');
        case _ =>
      }
    }
  }

  // ---- chains, big-step ------------------------------------------------------------------

  /** Fell means the traversal reached the end of the list (or a return). */
  datatype Outcome = Decided(v: Verdict, st: St) | Fell(st: St) | TooDeep

  function Eval(env: Env, P: Program, here: Chain, rules: seq<seq<Expr>>, st: St, depth: nat): Outcome
    requires env.pkt.Valid()
    decreases depth, |rules|
  {
    if rules == [] then Fell(st)
    else match Exec(env, P.sets, here, rules[0], st, [])
      case Go(st', _) => Eval(env, P, here, rules[1..], st', depth)
      case Break(st') => Eval(env, P, here, rules[1..], st', depth)
      case Act(Stop(v), st') => Decided(v, st')
      case Act(Back, st') => Fell(st')
      case Act(Call(c), st') =>
        if depth == 0 then TooDeep
        else match Eval(env, P, c, P.chains(c), st', depth - 1)
          case Fell(st'') => Eval(env, P, here, rules[1..], st'', depth)
          case other => other
  }

  // ---- chains, small-step ----------------------------------------------------------------

  /** What is left of one chain. */
  datatype Frame = Frame(chain: Chain, rules: seq<seq<Expr>>)

  /** A traversal in progress (call stack, innermost chain first), or its verdict. */
  datatype Config = Running(stack: seq<Frame>, st: St) | Halted(v: Verdict, st: St)

  function Step(env: Env, P: Program, policy: Verdict, cfg: Config): Config
    requires env.pkt.Valid()
  {
    match cfg
    case Halted(_, _) => cfg
    case Running(stack, st) =>
      if stack == [] then Halted(policy, st)
      else if stack[0].rules == [] then Running(stack[1..], st)
      else
        var here := stack[0].chain;
        var rest := Frame(here, stack[0].rules[1..]);
        match Exec(env, P.sets, here, stack[0].rules[0], st, [])
        case Go(st', _) => Running([rest] + stack[1..], st')
        case Break(st') => Running([rest] + stack[1..], st')
        case Act(Stop(v), st') => Halted(v, st')
        case Act(Back, st') => Running(stack[1..], st')
        case Act(Call(c), st') => Running([Frame(c, P.chains(c)), rest] + stack[1..], st')
  }

  function Steps(env: Env, P: Program, policy: Verdict, cfg: Config, n: nat): Config
    requires env.pkt.Valid()
    decreases n
  {
    if n == 0 then cfg else Steps(env, P, policy, Step(env, P, policy, cfg), n - 1)
  }

  lemma {:induction false} StepsAdd(env: Env, P: Program, policy: Verdict, cfg: Config, m: nat, n: nat)
    requires env.pkt.Valid()
    ensures Steps(env, P, policy, cfg, m + n) == Steps(env, P, policy, Steps(env, P, policy, cfg, m), n)
    decreases m
  {
    if m != 0 {
      StepsAdd(env, P, policy, Step(env, P, policy, cfg), m - 1, n);
    }
  }

  lemma OneStep(env: Env, P: Program, policy: Verdict, cfg: Config)
    requires env.pkt.Valid()
    ensures Steps(env, P, policy, cfg, 1) == Step(env, P, policy, cfg)
  {
    assert Steps(env, P, policy, cfg, 1) == Steps(env, P, policy, Step(env, P, policy, cfg), 0);
  }

  /** Where the machine is once the list on top of the stack is finished. */
  function AfterEval(o: Outcome, below: seq<Frame>): Config
    requires !o.TooDeep?
  {
    match o
    case Decided(v, st) => Halted(v, st)
    case Fell(st) => Running(below, st)
  }

  /** Every big-step result is reached by the machine. */
  lemma {:induction false} EvalIsRun(env: Env, P: Program, policy: Verdict, top: Frame, below: seq<Frame>,
                                     st: St, depth: nat) returns (n: nat)
    requires env.pkt.Valid()
    requires !Eval(env, P, top.chain, top.rules, st, depth).TooDeep?
    ensures Steps(env, P, policy, Running([top] + below, st), n)
         == AfterEval(Eval(env, P, top.chain, top.rules, st, depth), below)
    decreases depth, |top.rules|
  {
    var cfg := Running([top] + below, st);
    assert cfg.stack[0] == top && cfg.stack[1..] == below;
    OneStep(env, P, policy, cfg);
    n := 1;
    if top.rules != [] {
      match Exec(env, P.sets, top.chain, top.rules[0], st, []) {
        case Go(st', _) =>
          n := EvalIsRun(env, P, policy, Frame(top.chain, top.rules[1..]), below, st', depth);
          n := n + 1;
        case Break(st') =>
          n := EvalIsRun(env, P, policy, Frame(top.chain, top.rules[1..]), below, st', depth);
          n := n + 1;
        case Act(Call(c), st') =>
          n := EvalCallIsRun(env, P, policy, top, below, st, st', c, depth);
        case _ =>
      }
    }
  }

  lemma {:induction false} EvalCallIsRun(env: Env, P: Program, policy: Verdict, top: Frame, below: seq<Frame>,
                                         st: St, st': St, c: Chain, depth: nat) returns (n: nat)
    requires env.pkt.Valid() && top.rules != []
    requires Exec(env, P.sets, top.chain, top.rules[0], st, []) == Act(Call(c), st')
    requires !Eval(env, P, top.chain, top.rules, st, depth).TooDeep?
    ensures Steps(env, P, policy, Running([top] + below, st), n)
         == AfterEval(Eval(env, P, top.chain, top.rules, st, depth), below)
    decreases depth, |top.rules|, 0
  {
    var cfg := Running([top] + below, st);
    var called, rest := Frame(c, P.chains(c)), Frame(top.chain, top.rules[1..]);
    assert cfg.stack[0] == top && cfg.stack[1..] == below;
    assert [called, rest] + below == [called] + ([rest] + below);
    var m := EvalIsRun(env, P, policy, called, [rest] + below, st', depth - 1);
    n := m + 1;
    var o := Eval(env, P, c, P.chains(c), st', depth - 1);
    if o.Fell? {
      var k := EvalIsRun(env, P, policy, rest, below, o.st, depth);
      StepsAdd(env, P, policy, Running([called] + ([rest] + below), st'), m, k);
      n := m + k + 1;
    }
  }

  /** A base chain: its rules, then its policy. */
  function Traverse(env: Env, P: Program, d: Direction, policy: Verdict, depth: nat): Option<Verdict>
    requires env.pkt.Valid()
  {
    match Eval(env, P, Base(d), P.chains(Base(d)), St(0, []), depth)
    case Decided(v, _) => Some(v)
    case Fell(_) => Some(policy)
    case TooDeep => None
  }

  /** The machine started at a base chain halts with the traversal's verdict. */
  lemma TraverseIsRun(env: Env, P: Program, d: Direction, policy: Verdict, depth: nat) returns (n: nat, st: St)
    requires env.pkt.Valid() && Traverse(env, P, d, policy, depth).Some?
    ensures Steps(env, P, policy, Running([Frame(Base(d), P.chains(Base(d)))], St(0, [])), n)
         == Halted(Traverse(env, P, d, policy, depth).value, st)
  {
    var top := Frame(Base(d), P.chains(Base(d)));
    var o := Eval(env, P, top.chain, top.rules, St(0, []), depth);
    assert [top] + [] == [top];
    n := EvalIsRun(env, P, policy, top, [], St(0, []), depth);
    st := o.st;
    if o.Fell? {
      StepsAdd(env, P, policy, Running([top], St(0, [])), n, 1);
      OneStep(env, P, policy, Running([], st));
      n := n + 1;
    }
  }
}
