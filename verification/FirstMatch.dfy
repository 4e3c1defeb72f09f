/** First match over a rule list, as an action. */
module FirstMatch {
  import opened Rules

  /** The action of the first active rule of a direction that matches. */
  function Decide(rules: seq<Rule>, v6: bool, d: Direction, now: int, sets: SetFn, p: Packet): (a: Option<Action>)
    requires ValidRules(rules)
    ensures a == match FirstHit(rules, v6, d, now, sets, p) case Some(k) => Some(rules[k].action) case None => None
  {
    if rules == [] then None
    else if Hits(rules[0], v6, d, now, sets, p) then Some(rules[0].action)
    else
      assert forall i :: 0 < i < |rules| ==> rules[i] == rules[1..][i - 1];
      Decide(rules[1..], v6, d, now, sets, p)
  }

  lemma {:induction false} DecideConcat(a: seq<Rule>, b: seq<Rule>, v6: bool, d: Direction, now: int, sets: SetFn, p: Packet)
    requires ValidRules(a) && ValidRules(b)
    ensures ValidRules(a + b)
    ensures Decide(a + b, v6, d, now, sets, p)
         == if Decide(a, v6, d, now, sets, p).Some? then Decide(a, v6, d, now, sets, p) else Decide(b, v6, d, now, sets, p)
  {
    if a == [] {
      assert a + b == b;
    } else {
      assert (a + b)[1..] == a[1..] + b;
      assert forall i :: 0 < i < |a| ==> a[i] == a[1..][i - 1];
      DecideConcat(a[1..], b, v6, d, now, sets, p);
    }
  }
}
