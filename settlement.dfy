// Settlement: a two-cursor greedy matcher between the debtors (ascending
// Net_Base, so the largest debt first) and the creditors (descending
// Net_Base, so the largest credit first), emitting payer -> receiver rows.
module Settlement {
  import opened Tables

  datatype Side = Debtor | Creditor

  predicate OnSide(b: Balance, side: Side)
  {
    if side == Debtor then b.netBase < 0 else b.netBase > 0
  }

  /** The rows on one side, in table order (the boolean-mask selection). */
  function Select(bs: seq<Balance>, side: Side): seq<Balance>
  {
    if |bs| == 0 then []
    else (if OnSide(bs[0], side) then [bs[0]] else []) + Select(bs[1..], side)
  }

  /** The selection holds exactly the rows of the table that are on that side. */
  lemma {:induction false} SelectMembers(bs: seq<Balance>, side: Side)
    ensures forall x :: x in Select(bs, side) <==> x in bs && OnSide(x, side)
  {
    if |bs| > 0 {
      SelectMembers(bs[1..], side);
      assert forall x :: x in bs <==> x == bs[0] || x in bs[1..];
    }
  }

  // ---------------------------------------------------------------------
  // Sorting
  // ---------------------------------------------------------------------

  /** The sort key: creditors are sorted by descending, debtors by ascending Net_Base. */
  function Key(b: Balance, side: Side): int
  {
    if side == Creditor then -b.netBase else b.netBase
  }

  predicate Sorted(s: seq<Balance>, side: Side)
  {
    forall i, j :: 0 <= i < j < |s| ==> Key(s[i], side) <= Key(s[j], side)
  }

  /** Inserts `p` before the first row whose key is not below its own. */
  function Insert(p: Balance, s: seq<Balance>, side: Side): seq<Balance>
  {
    if |s| == 0 || Key(p, side) <= Key(s[0], side) then [p] + s
    else [s[0]] + Insert(p, s[1..], side)
  }

  /** Inserting adds exactly the one row. */
  lemma {:induction false} InsertPermutes(p: Balance, s: seq<Balance>, side: Side)
    ensures multiset(Insert(p, s, side)) == multiset{p} + multiset(s)
  {
    if |s| > 0 && Key(p, side) > Key(s[0], side) {
      InsertPermutes(p, s[1..], side);
      assert s == [s[0]] + s[1..];
    }
  }

  /**
   * Stable insertion sort on the key: rows with equal Net_Base keep their
   * table order.
   */
  function SortByKey(s: seq<Balance>, side: Side): seq<Balance>
  {
    if |s| == 0 then []
    else Insert(s[0], SortByKey(s[1..], side), side)
  }

  lemma {:induction false} InsertSorted(p: Balance, s: seq<Balance>, side: Side)
    requires Sorted(s, side)
    ensures Sorted(Insert(p, s, side), side)
  {
    var r := Insert(p, s, side);
    if |s| > 0 && Key(p, side) > Key(s[0], side) {
      var tail := Insert(p, s[1..], side);
      InsertSorted(p, s[1..], side);
      InsertLowerBound(p, s[1..], side, Key(s[0], side));
      assert r == [s[0]] + tail;
      forall i, j | 0 <= i < j < |r| ensures Key(r[i], side) <= Key(r[j], side) {
        assert r[j] == tail[j - 1];
        if i > 0 {
          assert r[i] == tail[i - 1];
        }
      }
    } else {
      assert r == [p] + s;
      forall i, j | 0 <= i < j < |r| ensures Key(r[i], side) <= Key(r[j], side) {
        assert r[j] == s[j - 1];
        if i > 0 {
          assert r[i] == s[i - 1];
        }
      }
    }
  }

  /** A bound below the inserted row and every row of `s` stays below every row of the result. */
  lemma {:induction false} InsertLowerBound(p: Balance, s: seq<Balance>, side: Side, b: int)
    requires b <= Key(p, side)
    requires forall k :: 0 <= k < |s| ==> b <= Key(s[k], side)
    ensures forall k :: 0 <= k < |Insert(p, s, side)| ==> b <= Key(Insert(p, s, side)[k], side)
  {
    var r := Insert(p, s, side);
    if |s| > 0 && Key(p, side) > Key(s[0], side) {
      InsertLowerBound(p, s[1..], side, b);
      var tail := Insert(p, s[1..], side);
      assert r == [s[0]] + tail;
      forall k | 0 < k < |r| ensures b <= Key(r[k], side) {
        assert r[k] == tail[k - 1];
      }
    } else {
      assert r == [p] + s;
      forall k | 0 < k < |r| ensures b <= Key(r[k], side) {
        assert r[k] == s[k - 1];
      }
    }
  }

  /** The sorted sides are ordered by their key and are permutations of the selection. */
  lemma {:induction false} SortByKeySorted(s: seq<Balance>, side: Side)
    ensures Sorted(SortByKey(s, side), side)
    ensures multiset(SortByKey(s, side)) == multiset(s)
  {
    if |s| > 0 {
      SortByKeySorted(s[1..], side);
      InsertSorted(s[0], SortByKey(s[1..], side), side);
      InsertPermutes(s[0], SortByKey(s[1..], side), side);
      assert s == [s[0]] + s[1..];
    }
  }

  /** Rows already in key order come out of the sort unchanged: the sort is stable. */
  lemma {:induction false} SortedUnchanged(s: seq<Balance>, side: Side)
    requires Sorted(s, side)
    ensures SortByKey(s, side) == s
  {
    if |s| > 0 {
      assert Sorted(s[1..], side);
      SortedUnchanged(s[1..], side);
      assert s == [s[0]] + s[1..];
    }
  }

  // ---------------------------------------------------------------------
  // Unique names
  // ---------------------------------------------------------------------

  /** No participant name occurs on two rows. */
  predicate UniqueNames(s: seq<Balance>)
  {
    Distinct(Parties(s))
  }

  function NameSet(s: seq<Balance>): set<string>
  {
    set x | x in s :: x.participant
  }

  lemma UniqueCons(x: Balance, s: seq<Balance>)
    ensures UniqueNames([x] + s) <==> x.participant !in NameSet(s) && UniqueNames(s)
    ensures NameSet([x] + s) == {x.participant} + NameSet(s)
  {
    NameSetCons(x, s);
    if UniqueNames([x] + s) {
      UniqueTail(x, s);
    }
    if x.participant !in NameSet(s) && UniqueNames(s) {
      UniqueExtend(x, s);
    }
  }

  lemma NameSetCons(x: Balance, s: seq<Balance>)
    ensures NameSet([x] + s) == {x.participant} + NameSet(s)
  {
    assert forall y :: y in [x] + s <==> y == x || y in s;
  }

  lemma UniqueTail(x: Balance, s: seq<Balance>)
    requires UniqueNames([x] + s)
    ensures x.participant !in NameSet(s) && UniqueNames(s)
  {
    var t := [x] + s;
    forall k | 0 <= k < |s| ensures s[k].participant != x.participant {
      assert t[0] == x && t[k + 1] == s[k];
    }
    forall i, j | 0 <= i < j < |s| ensures s[i].participant != s[j].participant {
      assert t[i + 1] == s[i] && t[j + 1] == s[j];
    }
  }

  lemma UniqueExtend(x: Balance, s: seq<Balance>)
    requires x.participant !in NameSet(s) && UniqueNames(s)
    ensures UniqueNames([x] + s)
  {
    var t := [x] + s;
    forall i, j | 0 <= i < j < |t| ensures t[i].participant != t[j].participant {
      if i == 0 {
        assert t[j] == s[j - 1] && t[j] in s;
      } else {
        assert t[i] == s[i - 1] && t[j] == s[j - 1];
      }
    }
  }

  lemma {:induction false} SelectUnique(bs: seq<Balance>, side: Side)
    requires UniqueNames(bs)
    ensures UniqueNames(Select(bs, side))
    ensures NameSet(Select(bs, side)) <= NameSet(bs)
  {
    if |bs| > 0 {
      assert bs == [bs[0]] + bs[1..];
      UniqueCons(bs[0], bs[1..]);
      SelectUnique(bs[1..], side);
      if OnSide(bs[0], side) {
        UniqueCons(bs[0], Select(bs[1..], side));
      }
    }
  }

  lemma {:induction false} InsertUnique(p: Balance, s: seq<Balance>, side: Side)
    requires UniqueNames(s) && p.participant !in NameSet(s)
    ensures UniqueNames(Insert(p, s, side))
    ensures NameSet(Insert(p, s, side)) == {p.participant} + NameSet(s)
  {
    UniqueCons(p, s);
    if |s| > 0 && Key(p, side) > Key(s[0], side) {
      assert s == [s[0]] + s[1..];
      UniqueCons(s[0], s[1..]);
      InsertUnique(p, s[1..], side);
      UniqueCons(s[0], Insert(p, s[1..], side));
    }
  }

  lemma {:induction false} SortUnique(s: seq<Balance>, side: Side)
    requires UniqueNames(s)
    ensures UniqueNames(SortByKey(s, side))
    ensures NameSet(SortByKey(s, side)) == NameSet(s)
  {
    if |s| > 0 {
      assert s == [s[0]] + s[1..];
      UniqueCons(s[0], s[1..]);
      SortUnique(s[1..], side);
      InsertUnique(s[0], SortByKey(s[1..], side), side);
    }
  }

  /** Two different rows of a table with unique names have different names. */
  lemma DifferentRowsDifferentNames(bs: seq<Balance>, x: Balance, y: Balance)
    requires UniqueNames(bs) && x in bs && y in bs && x != y
    ensures x.participant != y.participant
  {
    var a :| 0 <= a < |bs| && bs[a] == x;
    var b :| 0 <= b < |bs| && bs[b] == y;
    assert a != b;
  }

  // ---------------------------------------------------------------------
  // The greedy matcher
  // ---------------------------------------------------------------------

  function Parties(s: seq<Balance>): (names: seq<string>)
    ensures |names| == |s|
    ensures forall k :: 0 <= k < |s| ==> names[k] == s[k].participant
  {
    seq(|s|, k requires 0 <= k < |s| => s[k].participant)
  }

  function Nets(s: seq<Balance>): (nets: seq<int>)
    ensures |nets| == |s|
    ensures forall k :: 0 <= k < |s| ==> nets[k] == s[k].netBase
  {
    seq(|s|, k requires 0 <= k < |s| => s[k].netBase)
  }

  function Min(a: int, b: int): int
  {
    if a <= b then a else b
  }

  function Abs(x: int): int
  {
    if x < 0 then -x else x
  }

  /**
   * The loop's state: the running Net_Base of every debtor and creditor and
   * the two cursors.
   */
  datatype State = State(dv: seq<int>, cv: seq<int>, i: nat, j: nat)

  /** Cursors in range; debtors not yet passed are at or below 0, creditors at or above. */
  predicate Inv(s: State)
  {
    && s.i <= |s.dv| && s.j <= |s.cv|
    && (forall m :: s.i <= m < |s.dv| ==> s.dv[m] <= 0)
    && (forall m :: s.j <= m < |s.cv| ==> s.cv[m] >= 0)
  }

  predicate Running(s: State)
  {
    s.i < |s.dv| && s.j < |s.cv|
  }

  function Pay(s: State): int
    requires Running(s)
  {
    Min(-s.dv[s.i], s.cv[s.j])
  }

  /** The payment of one iteration, made only when it exceeds eps. */
  function PayStep(s: State, eps: int): (t: State)
    requires Running(s)
    ensures Running(t)
  {
    if Pay(s) > eps then State(s.dv[s.i := s.dv[s.i] + Pay(s)], s.cv[s.j := s.cv[s.j] - Pay(s)], s.i, s.j)
    else s
  }

  /** The cursor moves of one iteration: a side within eps of zero is settled. */
  function Advance(s: State, eps: int): (t: State)
    requires Running(s)
  {
    State(s.dv, s.cv, if Abs(s.dv[s.i]) <= eps then s.i + 1 else s.i, if Abs(s.cv[s.j]) <= eps then s.j + 1 else s.j)
  }

  /** One iteration of the loop. */
  function Next(s: State, eps: int): State
    requires Running(s)
  {
    Advance(PayStep(s, eps), eps)
  }

  /**
   * One iteration keeps the invariant and advances at least one cursor:
   * a payment is the smaller of the two running amounts, so one of them lands
   * exactly on 0; no payment means that amount is at most eps, so one of them
   * is already within eps. The two running amounts move toward 0 and not past it.
   */
  lemma NextFacts(s: State, eps: int)
    requires Inv(s) && Running(s) && eps >= 0
    ensures var n := Next(s, eps);
      && Inv(n)
      && |n.dv| == |s.dv| && |n.cv| == |s.cv|
      && s.i <= n.i <= s.i + 1 && s.j <= n.j <= s.j + 1
      && n.i + n.j > s.i + s.j
      && s.dv[s.i] <= n.dv[s.i] <= 0 && 0 <= n.cv[s.j] <= s.cv[s.j]
      && (forall m :: 0 <= m < |s.dv| && m != s.i ==> n.dv[m] == s.dv[m])
      && (forall m :: 0 <= m < |s.cv| && m != s.j ==> n.cv[m] == s.cv[m])
  {
  }

  /** The row appended in one iteration, if any. */
  function Emitted(dn: seq<string>, cn: seq<string>, s: State, eps: int): seq<Transaction>
    requires Running(s) && |dn| == |s.dv| && |cn| == |s.cv|
  {
    if Pay(s) > eps then [Transaction(dn[s.i], cn[s.j], Pay(s))] else []
  }

  /** The rows the loop appends from state `s` until a cursor runs off its side. */
  function Greedy(dn: seq<string>, cn: seq<string>, s: State, eps: int): seq<Transaction>
    requires Inv(s) && |dn| == |s.dv| && |cn| == |s.cv| && eps >= 0
    decreases |s.dv| - s.i + |s.cv| - s.j
  {
    if !Running(s) then []
    else
      NextFacts(s, eps);
      Emitted(dn, cn, s, eps) + Greedy(dn, cn, Next(s, eps), eps)
  }

  function Debtors(bs: seq<Balance>): seq<Balance>
  {
    SortByKey(Select(bs, Debtor), Debtor)
  }

  function Creditors(bs: seq<Balance>): seq<Balance>
  {
    SortByKey(Select(bs, Creditor), Creditor)
  }

  lemma SidesStartValid(bs: seq<Balance>)
    ensures forall x :: x in Debtors(bs) <==> x in bs && x.netBase < 0
    ensures forall x :: x in Creditors(bs) <==> x in bs && x.netBase > 0
    ensures Inv(State(Nets(Debtors(bs)), Nets(Creditors(bs)), 0, 0))
  {
    SideMembers(bs, Debtor);
    SideMembers(bs, Creditor);
    var d, c := Debtors(bs), Creditors(bs);
    forall m | 0 <= m < |d| ensures Nets(d)[m] <= 0 {
      assert d[m] in d;
    }
    forall m | 0 <= m < |c| ensures Nets(c)[m] >= 0 {
      assert c[m] in c;
    }
  }

  /** A sorted side holds exactly the rows of the table on that side. */
  lemma SideMembers(bs: seq<Balance>, side: Side)
    ensures forall x :: x in SortByKey(Select(bs, side), side) <==> x in bs && OnSide(x, side)
  {
    SelectMembers(bs, side);
    SortByKeySorted(Select(bs, side), side);
    SameMembers(SortByKey(Select(bs, side), side), Select(bs, side));
  }

  lemma SameMembers(r: seq<Balance>, s: seq<Balance>)
    requires multiset(r) == multiset(s)
    ensures forall x :: x in r <==> x in s
  {
    forall x ensures x in r <==> x in s {
      assert x in r <==> x in multiset(r);
      assert x in s <==> x in multiset(s);
    }
  }

  function Start(bs: seq<Balance>): (s: State)
    ensures Inv(s)
  {
    SidesStartValid(bs);
    State(Nets(Debtors(bs)), Nets(Creditors(bs)), 0, 0)
  }

  /** The settlement table that the loop of `compute_settlement` builds. */
  function Settle(bs: seq<Balance>, eps: int): seq<Transaction>
    requires eps >= 0
  {
    Greedy(Parties(Debtors(bs)), Parties(Creditors(bs)), Start(bs), eps)
  }

  /**
   * The settlement: select and sort the two sides, then run the loop over
   * them; the result is exactly the reference table.
   */
  method ComputeSettlement(balances: seq<Balance>, eps: int) returns (txns: seq<Transaction>)
    requires eps >= 0
    ensures txns == Settle(balances, eps)
  {
    var debtors := Debtors(balances);
    var creditors := Creditors(balances);
    var s0 := Start(balances);
    txns := MatchSides(Parties(debtors), Parties(creditors), s0.dv, s0.cv, eps);
  }

  /**
   * The loop itself, over two arrays of running balances updated in place:
   * it builds exactly the rows of the reference matcher.
   */
  method MatchSides(dn: seq<string>, cn: seq<string>, dv: seq<int>, cv: seq<int>, eps: int) returns (txns: seq<Transaction>)
    requires |dn| == |dv| && |cn| == |cv| && eps >= 0
    requires Inv(State(dv, cv, 0, 0))
    ensures txns == Greedy(dn, cn, State(dv, cv, 0, 0), eps)
  {
    var dNet := new int[|dv|](k requires 0 <= k < |dv| => dv[k]);
    var cNet := new int[|cv|](k requires 0 <= k < |cv| => cv[k]);
    assert dNet[..] == dv && cNet[..] == cv;
    txns := [];
    var i: nat, j: nat := 0, 0;
    while i < dNet.Length && j < cNet.Length
      invariant Inv(State(dNet[..], cNet[..], i, j))
      invariant dNet != cNet
      invariant dNet.Length == |dn| && cNet.Length == |cn|
      invariant txns + Greedy(dn, cn, State(dNet[..], cNet[..], i, j), eps) == Greedy(dn, cn, State(dv, cv, 0, 0), eps)
      decreases dNet.Length - i + cNet.Length - j
    {
      ghost var s := State(dNet[..], cNet[..], i, j);
      ghost var before := txns;
      var row;
      row, i, j := Iterate(dn, cn, dNet, cNet, i, j, eps);
      txns := txns + row;
      LoopStep(before, dn, cn, s, eps);
    }
  }

  /**
   * One iteration of the loop in place: the payment, if it exceeds eps, moves
   * both running balances, and each cursor passes a side now within eps of zero.
   */
  method Iterate(dn: seq<string>, cn: seq<string>, dNet: array<int>, cNet: array<int>, i: nat, j: nat, eps: int)
      returns (row: seq<Transaction>, i': nat, j': nat)
    requires dNet != cNet && dNet.Length == |dn| && cNet.Length == |cn| && eps >= 0
    requires Running(State(dNet[..], cNet[..], i, j))
    modifies dNet, cNet
    ensures row == Emitted(dn, cn, old(State(dNet[..], cNet[..], i, j)), eps)
    ensures State(dNet[..], cNet[..], i', j') == Next(old(State(dNet[..], cNet[..], i, j)), eps)
  {
    ghost var s := State(dNet[..], cNet[..], i, j);
    var pay := Min(-dNet[i], cNet[j]);
    assert pay == Pay(s);
    if pay > eps {
      row := [Transaction(dn[i], cn[j], pay)];
      Transfer(dNet, cNet, i, j, pay);
      assert State(dNet[..], cNet[..], i, j) == PayStep(s, eps);
    } else {
      row := [];
      assert State(dNet[..], cNet[..], i, j) == PayStep(s, eps);
    }
    i', j' := i, j;
    if Abs(dNet[i]) <= eps {
      i' := i + 1;
    }
    if Abs(cNet[j]) <= eps {
      j' := j + 1;
    }
  }

  /** One payment: the debtor's running balance rises by `pay`, the creditor's falls by it. */
  method Transfer(dNet: array<int>, cNet: array<int>, i: nat, j: nat, pay: int)
    requires dNet != cNet && i < dNet.Length && j < cNet.Length
    modifies dNet, cNet
    ensures dNet[..] == old(dNet[..])[i := old(dNet[i]) + pay]
    ensures cNet[..] == old(cNet[..])[j := old(cNet[j]) - pay]
  {
    dNet[i] := dNet[i] + pay;
    cNet[j] := cNet[j] - pay;
  }

  /** One iteration keeps the loop invariant: the rows so far plus what remains is the whole table. */
  lemma LoopStep(before: seq<Transaction>, dn: seq<string>, cn: seq<string>, s: State, eps: int)
    requires Inv(s) && Running(s) && |dn| == |s.dv| && |cn| == |s.cv| && eps >= 0
    ensures Inv(Next(s, eps)) && |Next(s, eps).dv| == |s.dv| && |Next(s, eps).cv| == |s.cv|
    ensures Next(s, eps).i + Next(s, eps).j > s.i + s.j
    ensures (before + Emitted(dn, cn, s, eps)) + Greedy(dn, cn, Next(s, eps), eps) == before + Greedy(dn, cn, s, eps)
  {
    NextFacts(s, eps);
    var e, g := Emitted(dn, cn, s, eps), Greedy(dn, cn, Next(s, eps), eps);
    assert Greedy(dn, cn, s, eps) == e + g;
    assert (before + e) + g == before + (e + g);
  }

  // ---------------------------------------------------------------------
  // Properties of the matcher
  // ---------------------------------------------------------------------

  /** What a name pays in total. */
  function OutOf(txns: seq<Transaction>, name: string): int
  {
    if |txns| == 0 then 0
    else (if txns[0].from == name then txns[0].amountVnd else 0) + OutOf(txns[1..], name)
  }

  /** What a name receives in total. */
  function InTo(txns: seq<Transaction>, name: string): int
  {
    if |txns| == 0 then 0
    else (if txns[0].to == name then txns[0].amountVnd else 0) + InTo(txns[1..], name)
  }

  lemma {:induction false} SumsOfConcat(a: seq<Transaction>, b: seq<Transaction>, name: string)
    ensures OutOf(a + b, name) == OutOf(a, name) + OutOf(b, name)
    ensures InTo(a + b, name) == InTo(a, name) + InTo(b, name)
  {
    if |a| > 0 {
      assert (a + b)[0] == a[0];
      assert (a + b)[1..] == a[1..] + b;
      SumsOfConcat(a[1..], b, name);
    } else {
      assert a + b == b;
    }
  }

  lemma {:induction false} SumsWhenAbsent(txns: seq<Transaction>, name: string)
    ensures (forall k :: 0 <= k < |txns| ==> txns[k].from != name) ==> OutOf(txns, name) == 0
    ensures (forall k :: 0 <= k < |txns| ==> txns[k].to != name) ==> InTo(txns, name) == 0
  {
    if |txns| > 0 {
      SumsWhenAbsent(txns[1..], name);
      assert forall k :: 1 <= k < |txns| ==> txns[1..][k - 1] == txns[k];
    }
  }

  /**
   * Every row pays more than eps, from a debtor not yet passed by the cursor
   * to a creditor not yet passed by the cursor.
   */
  lemma {:induction false} GreedyEndpoints(dn: seq<string>, cn: seq<string>, s: State, eps: int)
    requires Inv(s) && |dn| == |s.dv| && |cn| == |s.cv| && eps >= 0
    ensures forall k :: 0 <= k < |Greedy(dn, cn, s, eps)| ==>
      var t := Greedy(dn, cn, s, eps)[k];
      && t.amountVnd > eps
      && (exists m :: s.i <= m < |dn| && dn[m] == t.from)
      && (exists m :: s.j <= m < |cn| && cn[m] == t.to)
    decreases |s.dv| - s.i + |s.cv| - s.j
  {
    if Running(s) {
      NextFacts(s, eps);
      var n := Next(s, eps);
      GreedyEndpoints(dn, cn, n, eps);
      var e := Emitted(dn, cn, s, eps);
      var rest := Greedy(dn, cn, n, eps);
      var g: seq<Transaction> := Greedy(dn, cn, s, eps);
      assert g == e + rest;
      forall k | 0 <= k < |e + rest|
        ensures g[k].amountVnd > eps
        ensures exists m :: s.i <= m < |dn| && dn[m] == g[k].from
        ensures exists m :: s.j <= m < |cn| && cn[m] == g[k].to
      {
        if k < |e| {
          assert g[k] == Transaction(dn[s.i], cn[s.j], Pay(s));
        } else {
          var t := rest[k - |e|];
          assert g[k] == t;
          var a :| n.i <= a < |dn| && dn[a] == t.from;
          var c :| n.j <= c < |cn| && cn[c] == t.to;
        }
      }
    }
  }

  /** Each iteration advances a cursor, so there are at most |debtors| + |creditors| of them, each emitting at most one row. */
  lemma {:induction false} GreedyLength(dn: seq<string>, cn: seq<string>, s: State, eps: int)
    requires Inv(s) && |dn| == |s.dv| && |cn| == |s.cv| && eps >= 0
    ensures |Greedy(dn, cn, s, eps)| <= (|s.dv| - s.i) + (|s.cv| - s.j)
    decreases |s.dv| - s.i + |s.cv| - s.j
  {
    if Running(s) {
      NextFacts(s, eps);
      GreedyLength(dn, cn, Next(s, eps), eps);
    }
  }

  /**
   * With distinct debtor names, each debtor not yet passed pays in total at
   * most its running debt: its balance moves toward zero and never past it.
   */
  lemma {:induction false} GreedyPaysAtMostDebt(dn: seq<string>, cn: seq<string>, s: State, eps: int, m: int)
    requires Inv(s) && |dn| == |s.dv| && |cn| == |s.cv| && eps >= 0
    requires Distinct(dn)
    requires s.i <= m < |dn|
    ensures 0 <= OutOf(Greedy(dn, cn, s, eps), dn[m]) <= -s.dv[m]
    decreases |s.dv| - s.i + |s.cv| - s.j
  {
    if Running(s) {
      NextFacts(s, eps);
      var n := Next(s, eps);
      var e := Emitted(dn, cn, s, eps);
      var rest := Greedy(dn, cn, n, eps);
      SumsOfConcat(e, rest, dn[m]);
      SumsWhenAbsent(e, dn[m]);
      if n.i <= m {
        GreedyPaysAtMostDebt(dn, cn, n, eps, m);
      } else {
        GreedyEndpoints(dn, cn, n, eps);
        SumsWhenAbsent(rest, dn[m]);
        GreedyNonNegative(dn, cn, n, eps);
      }
    } else {
      SumsWhenAbsent([], dn[m]);
    }
  }

  /**
   * With distinct creditor names, each creditor not yet passed receives in
   * total at most its running credit.
   */
  lemma {:induction false} GreedyReceivesAtMostCredit(dn: seq<string>, cn: seq<string>, s: State, eps: int, m: int)
    requires Inv(s) && |dn| == |s.dv| && |cn| == |s.cv| && eps >= 0
    requires Distinct(cn)
    requires s.j <= m < |cn|
    ensures 0 <= InTo(Greedy(dn, cn, s, eps), cn[m]) <= s.cv[m]
    decreases |s.dv| - s.i + |s.cv| - s.j
  {
    if Running(s) {
      NextFacts(s, eps);
      var n := Next(s, eps);
      var e := Emitted(dn, cn, s, eps);
      var rest := Greedy(dn, cn, n, eps);
      SumsOfConcat(e, rest, cn[m]);
      SumsWhenAbsent(e, cn[m]);
      if n.j <= m {
        GreedyReceivesAtMostCredit(dn, cn, n, eps, m);
      } else {
        GreedyEndpoints(dn, cn, n, eps);
        SumsWhenAbsent(rest, cn[m]);
        GreedyNonNegative(dn, cn, n, eps);
      }
    } else {
      SumsWhenAbsent([], cn[m]);
    }
  }

  lemma {:induction false} GreedyNonNegative(dn: seq<string>, cn: seq<string>, s: State, eps: int)
    requires Inv(s) && |dn| == |s.dv| && |cn| == |s.cv| && eps >= 0
    ensures forall name :: OutOf(Greedy(dn, cn, s, eps), name) >= 0 && InTo(Greedy(dn, cn, s, eps), name) >= 0
  {
    GreedyEndpoints(dn, cn, s, eps);
    forall name ensures OutOf(Greedy(dn, cn, s, eps), name) >= 0 && InTo(Greedy(dn, cn, s, eps), name) >= 0 {
      PositiveAmountsSum(Greedy(dn, cn, s, eps), name);
    }
  }

  lemma {:induction false} PositiveAmountsSum(txns: seq<Transaction>, name: string)
    requires forall k :: 0 <= k < |txns| ==> txns[k].amountVnd >= 0
    ensures OutOf(txns, name) >= 0 && InTo(txns, name) >= 0
  {
    if |txns| > 0 {
      assert forall k :: 1 <= k < |txns| ==> txns[1..][k - 1] == txns[k];
      PositiveAmountsSum(txns[1..], name);
    }
  }

  // ---------------------------------------------------------------------
  // Properties of the settlement table
  // ---------------------------------------------------------------------

  lemma DebtorRow(bs: seq<Balance>, m: int)
    requires 0 <= m < |Debtors(bs)|
    ensures Debtors(bs)[m] in bs && Debtors(bs)[m].netBase < 0
  {
    SidesStartValid(bs);
    assert Debtors(bs)[m] in Debtors(bs);
  }

  lemma CreditorRow(bs: seq<Balance>, m: int)
    requires 0 <= m < |Creditors(bs)|
    ensures Creditors(bs)[m] in bs && Creditors(bs)[m].netBase > 0
  {
    SidesStartValid(bs);
    assert Creditors(bs)[m] in Creditors(bs);
  }

  /**
   * Every settlement row pays more than eps, from a row with negative Net_Base
   * to a row with positive Net_Base; with unique names nobody pays themselves.
   */
  lemma SettlementEndpoints(bs: seq<Balance>, eps: int)
    requires eps >= 0
    ensures forall t :: t in Settle(bs, eps) ==>
      && t.amountVnd > eps
      && (exists k :: 0 <= k < |bs| && bs[k].participant == t.from && bs[k].netBase < 0)
      && (exists k :: 0 <= k < |bs| && bs[k].participant == t.to && bs[k].netBase > 0)
    ensures UniqueNames(bs) ==> forall t :: t in Settle(bs, eps) ==> t.from != t.to
  {
    var dn := Parties(Debtors(bs));
    var cn := Parties(Creditors(bs));
    var S := Settle(bs, eps);
    GreedyEndpoints(dn, cn, Start(bs), eps);
    forall t | t in S
      ensures t.amountVnd > eps
      ensures exists k :: 0 <= k < |bs| && bs[k].participant == t.from && bs[k].netBase < 0
      ensures exists k :: 0 <= k < |bs| && bs[k].participant == t.to && bs[k].netBase > 0
      ensures UniqueNames(bs) ==> t.from != t.to
    {
      var q :| 0 <= q < |S| && S[q] == t;
      var a :| 0 <= a < |dn| && dn[a] == t.from;
      var c :| 0 <= c < |cn| && cn[c] == t.to;
      DebtorRow(bs, a);
      CreditorRow(bs, c);
      var x := Debtors(bs)[a];
      var y := Creditors(bs)[c];
      var ka :| 0 <= ka < |bs| && bs[ka] == x;
      var kc :| 0 <= kc < |bs| && bs[kc] == y;
      if UniqueNames(bs) {
        DifferentRowsDifferentNames(bs, x, y);
      }
    }
  }

  /** The loop runs at most |debtors| + |creditors| times, emitting at most one row each time. */
  lemma SettlementLength(bs: seq<Balance>, eps: int)
    requires eps >= 0
    ensures |Settle(bs, eps)| <= |Select(bs, Debtor)| + |Select(bs, Creditor)|
  {
    GreedyLength(Parties(Debtors(bs)), Parties(Creditors(bs)), Start(bs), eps);
    SortByKeySorted(Select(bs, Debtor), Debtor);
    SortByKeySorted(Select(bs, Creditor), Creditor);
    assert |Debtors(bs)| == |multiset(Select(bs, Debtor))|;
    assert |Creditors(bs)| == |multiset(Select(bs, Creditor))|;
  }

  /** With unique names, the debtor side and the creditor side have unique names too. */
  lemma SidesUnique(bs: seq<Balance>)
    requires UniqueNames(bs)
    ensures UniqueNames(Debtors(bs)) && UniqueNames(Creditors(bs))
  {
    SelectUnique(bs, Debtor);
    SortUnique(Select(bs, Debtor), Debtor);
    SelectUnique(bs, Creditor);
    SortUnique(Select(bs, Creditor), Creditor);
  }

  /** A row that is not a debtor pays nothing. */
  lemma NonDebtorPaysNothing(bs: seq<Balance>, eps: int, k: int)
    requires eps >= 0 && UniqueNames(bs) && 0 <= k < |bs| && bs[k].netBase >= 0
    ensures OutOf(Settle(bs, eps), bs[k].participant) == 0
  {
    var S := Settle(bs, eps);
    SettlementEndpoints(bs, eps);
    forall q | 0 <= q < |S| ensures S[q].from != bs[k].participant {
      assert S[q] in S;
      var a :| 0 <= a < |bs| && bs[a].participant == S[q].from && bs[a].netBase < 0;
      assert a != k;
    }
    SumsWhenAbsent(S, bs[k].participant);
  }

  /** A row that is not a creditor receives nothing. */
  lemma NonCreditorReceivesNothing(bs: seq<Balance>, eps: int, k: int)
    requires eps >= 0 && UniqueNames(bs) && 0 <= k < |bs| && bs[k].netBase <= 0
    ensures InTo(Settle(bs, eps), bs[k].participant) == 0
  {
    var S := Settle(bs, eps);
    SettlementEndpoints(bs, eps);
    forall q | 0 <= q < |S| ensures S[q].to != bs[k].participant {
      assert S[q] in S;
      var a :| 0 <= a < |bs| && bs[a].participant == S[q].to && bs[a].netBase > 0;
      assert a != k;
    }
    SumsWhenAbsent(S, bs[k].participant);
  }

  /** With unique names, a debtor pays in total at most its debt. */
  lemma DebtorPaysAtMostDebt(bs: seq<Balance>, eps: int, k: int)
    requires eps >= 0 && UniqueNames(bs) && 0 <= k < |bs| && bs[k].netBase < 0
    ensures 0 <= OutOf(Settle(bs, eps), bs[k].participant) <= -bs[k].netBase
  {
    var d := Debtors(bs);
    SidesUnique(bs);
    SidesStartValid(bs);
    assert bs[k] in d;
    var m :| 0 <= m < |d| && d[m] == bs[k];
    GreedyPaysAtMostDebt(Parties(d), Parties(Creditors(bs)), Start(bs), eps, m);
  }

  /** With unique names, a creditor receives in total at most its credit. */
  lemma CreditorReceivesAtMostCredit(bs: seq<Balance>, eps: int, k: int)
    requires eps >= 0 && UniqueNames(bs) && 0 <= k < |bs| && bs[k].netBase > 0
    ensures 0 <= InTo(Settle(bs, eps), bs[k].participant) <= bs[k].netBase
  {
    var c := Creditors(bs);
    SidesUnique(bs);
    SidesStartValid(bs);
    assert bs[k] in c;
    var m :| 0 <= m < |c| && c[m] == bs[k];
    GreedyReceivesAtMostCredit(Parties(Debtors(bs)), Parties(c), Start(bs), eps, m);
  }

  /**
   * With unique participant names, every balance row pays in total at most
   * its debt and receives in total at most its credit: a debtor only pays, a
   * creditor only receives, and a settled row does neither. Balances move
   * toward zero and never past it.
   */
  lemma SettlementRespectsBalances(bs: seq<Balance>, eps: int, k: int)
    requires eps >= 0 && UniqueNames(bs) && 0 <= k < |bs|
    ensures var S := Settle(bs, eps);
      && 0 <= OutOf(S, bs[k].participant) <= (if bs[k].netBase < 0 then -bs[k].netBase else 0)
      && 0 <= InTo(S, bs[k].participant) <= (if bs[k].netBase > 0 then bs[k].netBase else 0)
  {
    if bs[k].netBase < 0 {
      DebtorPaysAtMostDebt(bs, eps, k);
      NonCreditorReceivesNothing(bs, eps, k);
    } else if bs[k].netBase > 0 {
      CreditorReceivesAtMostCredit(bs, eps, k);
      NonDebtorPaysNothing(bs, eps, k);
    } else {
      NonDebtorPaysNothing(bs, eps, k);
      NonCreditorReceivesNothing(bs, eps, k);
    }
  }
}
