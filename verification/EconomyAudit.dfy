/**
 * The reconciliation of the economy ledger with the balance snapshot
 * (tools/audit/economy_audit.py): which findings it reports, when it reports none,
 * and which changes to a clean ledger it notices.
 */
module EconomyAudit {
  import opened Basics

  /** A ledger row; rows without a currency are kept for their key only, and peer 0 means no counterparty. */
  datatype Row = Row(key: string, player: int, peer: int, currency: int, delta: int, balanceAfter: int) {
    function Own(): Account {
      Account(player, currency)
    }

    function Other(): Account {
      Account(peer, currency)
    }
  }

  datatype Account = Account(player: int, currency: int)

  datatype Finding =
    | DuplicateKey(first: nat, row: nat)
    | ReplayMismatch(row: nat)
    | NegativeBalance(row: nat)
    | NetVsBalance(account: Account)
    | MissingBalance(account: Account)
    | MissingLedger(account: Account)
    | Conservation

  // ----- what the ledger says -----

  /** What a row adds to an account. */
  function Effect(r: Row, a: Account): int {
    if r.currency == 0 then 0
    else (if a == r.Own() then r.delta else 0) - (if r.peer != 0 && a == r.Other() then r.delta else 0)
  }

  /** What the rows add to an account altogether. */
  function NetAt(rows: seq<Row>, a: Account): int {
    if |rows| == 0 then 0 else NetAt(rows[..|rows| - 1], a) + Effect(rows[|rows| - 1], a)
  }

  /** The accounts a row names. */
  function Names(r: Row): set<Account> {
    if r.currency == 0 then {} else if r.peer != 0 then {r.Own(), r.Other()} else {r.Own()}
  }

  function Touched(rows: seq<Row>): set<Account> {
    if |rows| == 0 then {} else Touched(rows[..|rows| - 1]) + Names(rows[|rows| - 1])
  }

  /** The balance of the player of row i right after that row. */
  function ReplayAt(rows: seq<Row>, i: nat): int
    requires i < |rows|
  {
    NetAt(rows[..i], rows[i].Own()) + rows[i].delta
  }

  predicate Repeats(rows: seq<Row>, i: nat)
    requires i < |rows|
  {
    exists j :: 0 <= j < i && rows[j].key == rows[i].key
  }

  /** Is row i explained by the rows before it, without a debt? */
  predicate Explained(rows: seq<Row>, i: nat)
    requires i < |rows|
  {
    rows[i].currency != 0 ==> ReplayAt(rows, i) == rows[i].balanceAfter && ReplayAt(rows, i) >= 0
  }

  predicate BalancesAgree(rows: seq<Row>, balances: map<Account, int>) {
    Touched(rows) <= balances.Keys && forall a :: a in balances ==> balances[a] == NetAt(rows, a)
  }

  /** A ledger and a snapshot with nothing to report. */
  predicate Clean(rows: seq<Row>, balances: map<Account, int>) {
    && (forall i :: 0 <= i < |rows| ==> !Repeats(rows, i))
    && (forall i :: 0 <= i < |rows| ==> Explained(rows, i))
    && BalancesAgree(rows, balances)
  }

  /** What one row more moves: a transfer takes from the peer what the player gets, and to oneself it moves nothing. */
  lemma RowMoves(rows: seq<Row>, r: Row, a: Account)
    ensures NetAt(rows + [r], a) - NetAt(rows, a)
            == if r.currency == 0 || a.currency != r.currency then 0
               else if r.peer == 0 then (if a.player == r.player then r.delta else 0)
               else if r.peer == r.player then 0
               else if a.player == r.player then r.delta
               else if a.player == r.peer then -r.delta else 0
  {
    assert (rows + [r])[..|rows|] == rows;
  }

  lemma NetNext(rows: seq<Row>, i: nat, a: Account)
    requires i < |rows|
    ensures NetAt(rows[..i + 1], a) == NetAt(rows[..i], a) + Effect(rows[i], a)
    ensures Touched(rows[..i + 1]) == Touched(rows[..i]) + Names(rows[i])
  {
    assert rows[..i + 1][..i] == rows[..i];
  }

  lemma {:induction false} NothingUntouched(rows: seq<Row>, a: Account)
    requires a !in Touched(rows)
    ensures NetAt(rows, a) == 0
  {
    if |rows| == 0 {
    } else {
      NothingUntouched(rows[..|rows| - 1], a);
    }
  }

  // ----- sums -----

  ghost function Total(m: map<Account, int>): int {
    if m.Keys == {} then 0
    else
      var a :| a in m;
      assert (m - {a}).Keys == m.Keys - {a};
      m[a] + Total(m - {a})
  }

  lemma Shrinks(m: map<Account, int>, a: Account)
    requires a in m
    ensures |m - {a}| < |m|
  {
    assert (m - {a}).Keys == m.Keys - {a};
  }

  /** The sum does not depend on the order. */
  lemma {:induction false} TotalLess(m: map<Account, int>, a: Account)
    requires a in m
    ensures Total(m) == m[a] + Total(m - {a})
    decreases |m|
  {
    var b :| b in m && Total(m) == m[b] + Total(m - {b});
    if a != b {
      Shrinks(m, a);
      Shrinks(m, b);
      TotalLess(m - {b}, a);
      TotalLess(m - {a}, b);
      assert m - {a} - {b} == m - {b} - {a};
    }
  }

  function At(m: map<Account, int>, a: Account): int {
    if a in m then m[a] else 0
  }

  lemma TotalAdds(m: map<Account, int>, a: Account, d: int)
    ensures Total(m[a := At(m, a) + d]) == Total(m) + d
  {
    var n := m[a := At(m, a) + d];
    TotalLess(n, a);
    assert n - {a} == m - {a};
    if a in m {
      TotalLess(m, a);
    } else {
      assert m - {a} == m;
    }
  }

  lemma NoTotal(m: map<Account, int>)
    requires m.Keys == {}
    ensures Total(m) == 0
  {
  }

  /** Maps that agree, up to entries of value zero, have the same sum. */
  lemma {:induction false} TotalsAgree(small: map<Account, int>, large: map<Account, int>)
    requires forall a :: a in small ==> a in large
    requires forall a :: a in large ==> large[a] == At(small, a)
    ensures Total(small) == Total(large)
    decreases |large|
  {
    hide Total;
    if large.Keys == {} {
      assert small.Keys == {};
      NoTotal(small);
      NoTotal(large);
    } else {
      var a :| a in large;
      Shrinks(large, a);
      TotalsAgree(small - {a}, large - {a});
      TotalLess(large, a);
      if a in small {
        TotalLess(small, a);
      } else {
        assert small - {a} == small;
      }
    }
  }

  /** What the ledger creates or destroys: the rows without a counterparty. */
  function Issued(rows: seq<Row>): int {
    if |rows| == 0 then 0
    else Issued(rows[..|rows| - 1])
         + (if rows[|rows| - 1].currency != 0 && rows[|rows| - 1].peer == 0 then rows[|rows| - 1].delta else 0)
  }

  /** Is this the map of the net amounts? */
  ghost predicate IsNet(m: map<Account, int>, rows: seq<Row>) {
    m.Keys == Touched(rows) && forall a :: a in m ==> m[a] == NetAt(rows, a)
  }

  // ----- the audit -----

  /** Is j the first row with the key of the later row i? */
  predicate FirstUse(rows: seq<Row>, j: nat, i: nat) {
    && j < i < |rows| && rows[j].key == rows[i].key
    && (forall k :: 0 <= k < j ==> rows[k].key != rows[i].key)
  }

  /** A repeated key has a first use. */
  lemma {:induction false} FirstUseExists(rows: seq<Row>, i: nat, j: nat) returns (first: nat)
    requires j < i < |rows| && rows[j].key == rows[i].key
    ensures FirstUse(rows, first, i)
  {
    if k :| 0 <= k < j && rows[k].key == rows[i].key {
      first := FirstUseExists(rows, i, k);
    } else {
      first := j;
    }
  }

  method FindDuplicates(rows: seq<Row>) returns (findings: seq<Finding>)
    ensures forall j: nat, i: nat :: DuplicateKey(j, i) in findings <==> FirstUse(rows, j, i)
    ensures forall f :: f in findings ==> f.DuplicateKey?
    ensures Distinct(findings)
  {
    findings := [];
    var seen: map<string, nat> := map[];
    for i := 0 to |rows|
      invariant forall k :: k in seen ==> seen[k] < i && rows[seen[k]].key == k
      invariant forall k, j :: k in seen && 0 <= j < seen[k] ==> rows[j].key != k
      invariant forall j :: 0 <= j < i ==> rows[j].key in seen
      invariant forall j: nat, k: nat :: DuplicateKey(j, k) in findings <==> k < i && FirstUse(rows, j, k)
      invariant forall f :: f in findings ==> f.DuplicateKey?
      invariant Distinct(findings)
    {
      if rows[i].key in seen {
        findings := findings + [DuplicateKey(seen[rows[i].key], i)];
      } else {
        seen := seen[rows[i].key := i];
      }
    }
  }

  /** Adds an amount to an account, which starts at zero. */
  function Added(m: map<Account, int>, a: Account, d: int): map<Account, int> {
    m[a := At(m, a) + d]
  }

  function Applied(m: map<Account, int>, r: Row): map<Account, int> {
    if r.currency == 0 then m
    else
      var own := Added(m, r.Own(), r.delta);
      if r.peer != 0 then Added(own, r.Other(), -r.delta) else own
  }

  lemma AppliedAt(m: map<Account, int>, r: Row, a: Account)
    ensures At(Applied(m, r), a) == At(m, a) + Effect(r, a)
  {
  }

  lemma AppliedKeys(m: map<Account, int>, r: Row)
    ensures Applied(m, r).Keys == m.Keys + Names(r)
  {
  }

  /** A net map gives what the rows give for every account, those that it does not list included. */
  lemma NetIs(m: map<Account, int>, rows: seq<Row>, a: Account)
    requires IsNet(m, rows)
    ensures At(m, a) == NetAt(rows, a)
  {
    if a !in m {
      NothingUntouched(rows, a);
    }
  }

  lemma AppliedIsNet(m: map<Account, int>, rows: seq<Row>, i: nat)
    requires i < |rows| && IsNet(m, rows[..i])
    ensures IsNet(Applied(m, rows[i]), rows[..i + 1])
    ensures Total(Applied(m, rows[i])) == Total(m) + Issued(rows[..i + 1]) - Issued(rows[..i])
    ensures At(m, rows[i].Own()) == NetAt(rows[..i], rows[i].Own())
  {
    var r := rows[i];
    AppliedTotal(m, rows, i);
    hide NetAt, Touched, Total, Issued, Applied, Effect, Names;
    AppliedKeys(m, r);
    NetNext(rows, i, r.Own());
    NetIs(m, rows[..i], r.Own());
    forall a | a in Applied(m, r) ensures Applied(m, r)[a] == NetAt(rows[..i + 1], a) {
      NetNext(rows, i, a);
      NetIs(m, rows[..i], a);
      AppliedAt(m, r, a);
    }
  }

  lemma AppliedTotal(m: map<Account, int>, rows: seq<Row>, i: nat)
    requires i < |rows|
    ensures Total(Applied(m, rows[i])) == Total(m) + Issued(rows[..i + 1]) - Issued(rows[..i])
  {
    hide Total;
    var r := rows[i];
    assert rows[..i + 1][..i] == rows[..i];
    if r.currency != 0 {
      TotalAdds(m, r.Own(), r.delta);
      if r.peer != 0 {
        TotalAdds(Added(m, r.Own(), r.delta), r.Other(), -r.delta);
      }
    }
  }

  method Replay(rows: seq<Row>) returns (findings: seq<Finding>, running: map<Account, int>)
    ensures IsNet(running, rows)
    ensures forall i: nat :: ReplayMismatch(i) in findings <==>
              i < |rows| && rows[i].currency != 0 && ReplayAt(rows, i) != rows[i].balanceAfter
    ensures forall i: nat :: NegativeBalance(i) in findings <==>
              i < |rows| && rows[i].currency != 0 && ReplayAt(rows, i) < 0
    ensures forall f :: f in findings ==> f.ReplayMismatch? || f.NegativeBalance?
  {
    hide NetAt, Touched, Total, Issued, Effect, Names;
    findings := [];
    running := map[];
    EmptyIsNet(rows);
    for i := 0 to |rows|
      invariant IsNet(running, rows[..i])
      invariant forall k: nat :: ReplayMismatch(k) in findings <==>
                  k < i && rows[k].currency != 0 && ReplayAt(rows, k) != rows[k].balanceAfter
      invariant forall k: nat :: NegativeBalance(k) in findings <==>
                k < i && rows[k].currency != 0 && ReplayAt(rows, k) < 0
      invariant forall f :: f in findings ==> f.ReplayMismatch? || f.NegativeBalance?
    {
      var r := rows[i];
      AppliedIsNet(running, rows, i);
      if r.currency != 0 {
        running := Added(running, r.Own(), r.delta);
        assert running[r.Own()] == ReplayAt(rows, i);
        if running[r.Own()] != r.balanceAfter {
          findings := findings + [ReplayMismatch(i)];
        }
        if running[r.Own()] < 0 {
          findings := findings + [NegativeBalance(i)];
        }
        if r.peer != 0 {
          running := Added(running, r.Other(), -r.delta);
        }
      }
    }
    assert rows[..|rows|] == rows;
  }

  lemma EmptyIsNet(rows: seq<Row>)
    ensures IsNet(map[], rows[..0]) && Total(map[]) == 0 && Issued(rows[..0]) == 0
  {
  }

  method NetAmounts(rows: seq<Row>) returns (net: map<Account, int>)
    ensures IsNet(net, rows) && Total(net) == Issued(rows)
  {
    hide NetAt, Touched, Total, Issued, Effect, Names;
    net := map[];
    EmptyIsNet(rows);
    for i := 0 to |rows|
      invariant IsNet(net, rows[..i]) && Total(net) == Issued(rows[..i])
    {
      var r := rows[i];
      AppliedIsNet(net, rows, i);
      if r.currency != 0 {
        net := Added(net, r.Own(), r.delta);
        if r.peer != 0 {
          net := Added(net, r.Other(), -r.delta);
        }
      }
    }
    assert rows[..|rows|] == rows;
  }

  method SumOf(m: map<Account, int>) returns (total: int)
    ensures total == Total(m)
  {
    total := 0;
    var rest := m;
    while rest.Keys != {}
      invariant total + Total(rest) == Total(m)
      decreases |rest|
    {
      var a :| a in rest.Keys;
      TotalLess(rest, a);
      total := total + rest[a];
      assert (rest - {a}).Keys == rest.Keys - {a};
      rest := rest - {a};
    }
  }

  // The snapshot against the net amounts, account by account; the source goes through the accounts in order.

  method Differences(net: map<Account, int>, balances: map<Account, int>) returns (findings: seq<Finding>)
    ensures forall a :: NetVsBalance(a) in findings <==> a in balances && balances[a] != At(net, a)
    ensures forall f :: f in findings ==> f.NetVsBalance?
  {
    findings := [];
    var todo := balances.Keys;
    while todo != {}
      invariant todo <= balances.Keys
      invariant forall a :: NetVsBalance(a) in findings <==> a in balances && a !in todo && balances[a] != At(net, a)
      invariant forall f :: f in findings ==> f.NetVsBalance?
      decreases |todo|
    {
      var a :| a in todo;
      todo := todo - {a};
      if At(net, a) != balances[a] {
        findings := findings + [NetVsBalance(a)];
      }
    }
  }

  method MissingBalances(net: map<Account, int>, balances: map<Account, int>) returns (findings: seq<Finding>)
    ensures forall a :: MissingBalance(a) in findings <==> a in net && a !in balances
    ensures forall f :: f in findings ==> f.MissingBalance?
  {
    findings := [];
    var todo := net.Keys - balances.Keys;
    while todo != {}
      invariant todo <= net.Keys - balances.Keys
      invariant forall a :: MissingBalance(a) in findings <==> a in net && a !in balances && a !in todo
      invariant forall f :: f in findings ==> f.MissingBalance?
      decreases |todo|
    {
      var a :| a in todo;
      todo := todo - {a};
      findings := findings + [MissingBalance(a)];
    }
  }

  method MissingLedgers(net: map<Account, int>, balances: map<Account, int>) returns (findings: seq<Finding>)
    ensures forall a :: MissingLedger(a) in findings <==> a in balances && a !in net && balances[a] != 0
    ensures forall f :: f in findings ==> f.MissingLedger?
  {
    findings := [];
    var todo := balances.Keys - net.Keys;
    while todo != {}
      invariant todo <= balances.Keys - net.Keys
      invariant forall a :: MissingLedger(a) in findings <==>
                  a in balances && a !in net && a !in todo && balances[a] != 0
      invariant forall f :: f in findings ==> f.MissingLedger?
      decreases |todo|
    {
      var a :| a in todo;
      todo := todo - {a};
      if balances[a] != 0 {
        findings := findings + [MissingLedger(a)];
      }
    }
  }

  method CompareBalances(net: map<Account, int>, balances: map<Account, int>) returns (findings: seq<Finding>)
    ensures forall a :: NetVsBalance(a) in findings <==> a in balances && balances[a] != At(net, a)
    ensures forall a :: MissingBalance(a) in findings <==> a in net && a !in balances
    ensures forall a :: MissingLedger(a) in findings <==> a in balances && a !in net && balances[a] != 0
    ensures forall f :: f in findings ==> f.NetVsBalance? || f.MissingBalance? || f.MissingLedger?
  {
    var differences := Differences(net, balances);
    var missing := MissingBalances(net, balances);
    var unledgered := MissingLedgers(net, balances);
    findings := differences + missing + unledgered;
  }

  /** The whole audit: it reports nothing exactly if ledger and snapshot are clean. */
  method Reconcile(rows: seq<Row>, balances: map<Account, int>) returns (findings: seq<Finding>, net: map<Account, int>)
    ensures |findings| == 0 <==> Clean(rows, balances)
    ensures IsNet(net, rows)
    ensures forall i: nat :: ReplayMismatch(i) in findings <==>
              i < |rows| && rows[i].currency != 0 && ReplayAt(rows, i) != rows[i].balanceAfter
    ensures forall i: nat :: NegativeBalance(i) in findings <==>
              i < |rows| && rows[i].currency != 0 && ReplayAt(rows, i) < 0
    ensures forall a :: NetVsBalance(a) in findings <==> a in balances && balances[a] != At(net, a)
    ensures forall a :: MissingBalance(a) in findings <==> a in net && a !in balances
    ensures forall a :: MissingLedger(a) in findings <==> a in balances && a !in net && balances[a] != 0
    ensures forall j: nat, i: nat :: DuplicateKey(j, i) in findings <==> FirstUse(rows, j, i)
    ensures Conservation in findings <==> Issued(rows) != Total(balances)
  {
    hide NetAt, Touched, Total, Issued, ReplayAt, FirstUse, Repeats;
    var duplicates := FindDuplicates(rows);
    var replayed, running := Replay(rows);
    net := NetAmounts(rows);
    var compared := CompareBalances(net, balances);
    var totalNet := SumOf(net);
    var totalBalance := SumOf(balances);
    findings := duplicates + replayed + compared;
    if totalNet != totalBalance {
      findings := findings + [Conservation];
    }
    NoDuplicatesIff(rows, duplicates);
    NoReplayIff(rows, replayed);
    NoDifferenceIff(rows, balances, net, compared);
    if |compared| == 0 {
      TotalsAgree(net, balances);
    }
  }

  lemma NoDuplicatesIff(rows: seq<Row>, findings: seq<Finding>)
    requires forall j: nat, i: nat :: DuplicateKey(j, i) in findings <==> FirstUse(rows, j, i)
    requires forall f :: f in findings ==> f.DuplicateKey?
    ensures |findings| == 0 <==> forall i :: 0 <= i < |rows| ==> !Repeats(rows, i)
  {
    if |findings| > 0 {
      assert findings[0] in findings;
      assert FirstUse(rows, findings[0].first, findings[0].row);
      assert Repeats(rows, findings[0].row);
    }
    forall i: nat | i < |rows| && Repeats(rows, i) ensures |findings| > 0 {
      var j :| 0 <= j < i && rows[j].key == rows[i].key;
      var first := FirstUseExists(rows, i, j);
      assert DuplicateKey(first, i) in findings;
    }
  }

  lemma NoReplayIff(rows: seq<Row>, findings: seq<Finding>)
    requires forall i: nat :: ReplayMismatch(i) in findings <==>
               i < |rows| && rows[i].currency != 0 && ReplayAt(rows, i) != rows[i].balanceAfter
    requires forall i: nat :: NegativeBalance(i) in findings <==>
              i < |rows| && rows[i].currency != 0 && ReplayAt(rows, i) < 0
    requires forall f :: f in findings ==> f.ReplayMismatch? || f.NegativeBalance?
    ensures |findings| == 0 <==> forall i :: 0 <= i < |rows| ==> Explained(rows, i)
  {
    hide ReplayAt;
    if |findings| > 0 {
      assert findings[0] in findings;
      assert !Explained(rows, findings[0].row);
    } else {
      forall i: nat | i < |rows| ensures Explained(rows, i) {
        assert ReplayMismatch(i) !in findings && NegativeBalance(i) !in findings;
      }
    }
  }

  lemma NoDifferenceIff(rows: seq<Row>, balances: map<Account, int>, net: map<Account, int>, findings: seq<Finding>)
    requires IsNet(net, rows)
    requires forall a :: NetVsBalance(a) in findings <==> a in balances && balances[a] != At(net, a)
    requires forall a :: MissingBalance(a) in findings <==> a in net && a !in balances
    requires forall a :: MissingLedger(a) in findings <==> a in balances && a !in net && balances[a] != 0
    requires forall f :: f in findings ==> f.NetVsBalance? || f.MissingBalance? || f.MissingLedger?
    ensures |findings| == 0 <==> BalancesAgree(rows, balances)
    ensures |findings| == 0 ==>
              (forall a :: a in net ==> a in balances) && forall a :: a in balances ==> balances[a] == At(net, a)
  {
    hide NetAt, Touched;
    forall a ensures At(net, a) == NetAt(rows, a) {
      if a !in net {
        NothingUntouched(rows, a);
      }
    }
    if |findings| > 0 {
      var f := findings[0];
      assert f in findings;
      assert At(net, f.account) == NetAt(rows, f.account);
    } else {
      forall a | a in net ensures a in balances {
        assert MissingBalance(a) !in findings;
      }
      forall a | a in balances ensures balances[a] == At(net, a) {
        assert NetVsBalance(a) !in findings;
      }
    }
  }

  // ----- what the audit notices -----

  /** The sums can differ only where an account differs: the fourth check finds nothing the third does not. */
  lemma ConservationFollows(rows: seq<Row>, balances: map<Account, int>, net: map<Account, int>)
    requires IsNet(net, rows) && BalancesAgree(rows, balances)
    ensures Total(net) == Total(balances)
  {
    forall a | a in balances ensures balances[a] == At(net, a) {
      if a !in net {
        NothingUntouched(rows, a);
      }
    }
    TotalsAgree(net, balances);
  }

  /** Changing the amount of one row of a clean ledger is always noticed. */
  lemma ChangedAmountIsNoticed(rows: seq<Row>, balances: map<Account, int>, i: nat, delta: int)
    requires Clean(rows, balances) && i < |rows| && rows[i].currency != 0 && delta != rows[i].delta
    ensures !Clean(rows[i := rows[i].(delta := delta)], balances)
  {
    hide NetAt, Touched;
    var changed := rows[i := rows[i].(delta := delta)];
    assert changed[..i] == rows[..i];
    assert Explained(rows, i);
    assert !Explained(changed, i);
  }

  /** A row that moves nothing. */
  predicate Idle(r: Row) {
    r.currency == 0 || r.delta == 0 || (r.peer != 0 && r.peer == r.player)
  }

  function Without(rows: seq<Row>, i: nat): (less: seq<Row>)
    requires i < |rows|
    ensures |less| == |rows| - 1
  {
    rows[..i] + rows[i + 1..]
  }

  lemma {:induction false} NetWithout(rows: seq<Row>, i: nat, a: Account)
    requires i < |rows|
    ensures NetAt(Without(rows, i), a) == NetAt(rows, a) - Effect(rows[i], a)
    ensures Touched(Without(rows, i)) <= Touched(rows)
    decreases |rows|
  {
    var n := |rows| - 1;
    if i == n {
      assert Without(rows, i) == rows[..n];
    } else {
      NetWithout(rows[..n], i, a);
      var less := Without(rows, i);
      assert less[..|less| - 1] == Without(rows[..n], i) && less[|less| - 1] == rows[n];
    }
  }

  lemma {:induction false} NamedIsTouched(rows: seq<Row>, i: nat)
    requires i < |rows|
    ensures Names(rows[i]) <= Touched(rows)
  {
    if i < |rows| - 1 {
      NamedIsTouched(rows[..|rows| - 1], i);
    }
  }

  /** The rows behind the one left out are explained as before. */
  lemma ExplainedWithout(rows: seq<Row>, i: nat, k: nat)
    requires i < |rows| && Idle(rows[i]) && k < |rows| - 1
    ensures Explained(Without(rows, i), k) <==> Explained(rows, if k < i then k else k + 1)
  {
    var less := Without(rows, i);
    if k < i {
      assert less[..k] == rows[..k];
    } else {
      assert less[k] == rows[k + 1];
      assert less[..k] == Without(rows[..k + 1], i);
      NetWithout(rows[..k + 1], i, less[k].Own());
    }
  }

  /** Leaving a row out of a clean ledger is noticed exactly if the row moves something. */
  lemma LostRowIsNoticedIff(rows: seq<Row>, balances: map<Account, int>, i: nat)
    requires Clean(rows, balances) && i < |rows|
    ensures Clean(Without(rows, i), balances) <==> Idle(rows[i])
  {
    hide NetAt, Touched;
    var less := Without(rows, i);
    if Idle(rows[i]) {
      forall k: nat | k < |less| ensures !Repeats(less, k) && Explained(less, k) {
        var at := if k < i then k else k + 1;
        assert Explained(rows, at) && !Repeats(rows, at);
        ExplainedWithout(rows, i, k);
        assert forall j :: 0 <= j < k ==> less[j] == rows[if j < i then j else j + 1];
      }
      forall a | a in balances ensures balances[a] == NetAt(less, a) {
        NetWithout(rows, i, a);
      }
      NetWithout(rows, i, rows[i].Own());
    } else {
      var a := rows[i].Own();
      NamedIsTouched(rows, i);
      assert a in Names(rows[i]);
      NetWithout(rows, i, a);
    }
  }
}
