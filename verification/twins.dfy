/** Matched order pairs and the per-cycle aggregation of their cost and of
    the net change per token. */
module Twins {
  import opened Orders

  /** One leg of a twin: a signed amount of a token, positive when received. */
  datatype Fill = Fill(token: Token, amount: int)

  /** Two fills settled together, and what the settlement cost. */
  datatype Twin = Twin(first: Fill, second: Fill, cost: int)

  /** The aggregate of a cycle: total cost and net change per token. */
  datatype Tally = Tally(cost: int, changes: map<Token, int>)

  /** What one twin contributes to the balance of `token`. */
  function Contribution(t: Twin, token: Token): int {
    (if t.first.token == token then t.first.amount else 0)
      + (if t.second.token == token then t.second.amount else 0)
  }

  /** Reference definition: the net change of `token` over all twins. */
  function NetChange(twins: seq<Twin>, token: Token): int {
    if |twins| == 0 then 0 else Contribution(twins[0], token) + NetChange(twins[1..], token)
  }

  /** Reference definition: the summed cost of all twins. */
  function TotalCost(twins: seq<Twin>): int {
    if |twins| == 0 then 0 else twins[0].cost + TotalCost(twins[1..])
  }

  /** Reference definition: the tokens any twin touches. */
  function Tokens(twins: seq<Twin>): set<Token> {
    if |twins| == 0 then {} else {twins[0].first.token, twins[0].second.token} + Tokens(twins[1..])
  }

  lemma {:induction false} ReferencesAppend(twins: seq<Twin>, t: Twin, token: Token)
    ensures NetChange(twins + [t], token) == NetChange(twins, token) + Contribution(t, token)
    ensures TotalCost(twins + [t]) == TotalCost(twins) + t.cost
    ensures Tokens(twins + [t]) == Tokens(twins) + {t.first.token, t.second.token}
    decreases |twins|
  {
    if |twins| > 0 {
      assert (twins + [t])[1..] == twins[1..] + [t];
      ReferencesAppend(twins[1..], t, token);
    }
  }

  lemma {:induction false} UntouchedUnchanged(twins: seq<Twin>, token: Token)
    requires token !in Tokens(twins)
    ensures NetChange(twins, token) == 0
    decreases |twins|
  {
    if |twins| > 0 {
      UntouchedUnchanged(twins[1..], token);
    }
  }

  /** Adds `amount` to the entry of `token`, creating it at zero if missing. */
  function AddChange(changes: map<Token, int>, token: Token, amount: int): map<Token, int> {
    changes[token := (if token in changes then changes[token] else 0) + amount]
  }

  /** The aggregation loop over a cycle's twins, in order: it creates an
      entry for every token a twin touches and sums the signed amounts and
      the costs. */
  function Aggregate(twins: seq<Twin>): (r: Tally)
    ensures r.cost == TotalCost(twins)
    ensures r.changes.Keys == Tokens(twins)
    ensures forall token :: token in r.changes ==> r.changes[token] == NetChange(twins, token)
  {
    if |twins| == 0 then Tally(0, map[])
    else
      var n := |twins| - 1;
      var prev := Aggregate(twins[..n]);
      var t := twins[n];
      assert twins[..n] + [t] == twins;
      var changes := AddChange(AddChange(prev.changes, t.first.token, t.first.amount), t.second.token, t.second.amount);
      assert forall token :: token in changes ==> changes[token] == NetChange(twins, token) by {
        forall token | token in changes ensures changes[token] == NetChange(twins, token) {
          ReferencesAppend(twins[..n], t, token);
          if token !in prev.changes {
            UntouchedUnchanged(twins[..n], token);
          }
        }
      }
      ReferencesAppend(twins[..n], t, t.first.token);
      Tally(prev.cost + t.cost, changes)
  }
}
