/** Folding status reports into a record: what any run of reports does to an intent. */
module Lifecycle {
  import opened Numbers
  import opened Wrappers
  import opened Ledger

  /** A report that is not a permitted edge is ignored. */
  function Advance(s: Status, report: Status): Status {
    match Transition(s, report)
    case Ok(next) => next
    case Err(_) => s
  }

  function Fold(s: Status, reports: seq<Status>): Status {
    if reports == [] then s else Advance(Fold(s, reports[..|reports| - 1]), reports[|reports| - 1])
  }

  function Rank(s: Status): nat {
    match s
    case Signed => 0
    case Submitted => 1
    case Open => 2
    case _ => 3
  }

  /** How many reports changed the status. */
  function Changes(s: Status, reports: seq<Status>): nat {
    if reports == [] then 0
    else
      var before := reports[..|reports| - 1];
      Changes(s, before) + if Fold(s, reports) != Fold(s, before) then 1 else 0
  }

  predicate TerminalsAgree(reports: seq<Status>) {
    forall i, j :: 0 <= i < |reports| && 0 <= j < |reports| && IsTerminal(reports[i]) && IsTerminal(reports[j]) ==>
      reports[i] == reports[j]
  }

  /** One report moves the status strictly forward to what was reported, or not at all; it is
      ignored exactly when the status is terminal or already as far along. */
  lemma AdvanceMovesForward(s: Status, report: Status)
    ensures Advance(s, report) == s <==> IsTerminal(s) || Rank(report) <= Rank(s)
    ensures Advance(s, report) != s ==> Advance(s, report) == report && Rank(s) < Rank(report)
  {
  }

  /** What a report does to the books: accepted exactly if it repeats the status or moves a live
      intent forward; then that record has it and that stamp is new, and nothing else has moved. */
  lemma ReconcileMeaning(b: Books, id: Key, target: Status, wall: int64)
    ensures var (b', out) := ReconcileBooks(b, id, target, wall);
      && (id !in b.records <==> out == Err(ErrUnknownIntent))
      && (id in b.records ==>
            var s := b.records[id].status;
            && (out == Ok(target) <==> target == s || (!IsTerminal(s) && Rank(s) < Rank(target)))
            && (out.Ok? || out == Err(ErrInvalidTransition)) && (out.Ok? ==> out.value == target))
      && (out.Err? ==> b' == b)
      && (out.Ok? ==>
            && b'.records == b.records[id := b.records[id].(status := target)] && b'.updatedAt == b.updatedAt[id := wall]
            && b'.sw == b.sw && b'.addrSpend == b.addrSpend)
  {
  }

  /** Any list of reports: no status moves backwards, terminal states stay, and at most three
      reports change anything. */
  lemma {:induction false} FoldMovesForward(s: Status, reports: seq<Status>)
    ensures Rank(s) + Changes(s, reports) <= Rank(Fold(s, reports)) <= 3
    ensures IsTerminal(s) ==> Fold(s, reports) == s
  {
    if reports != [] {
      FoldMovesForward(s, reports[..|reports| - 1]);
      AdvanceMovesForward(Fold(s, reports[..|reports| - 1]), reports[|reports| - 1]);
    }
  }

  /** From a live status the fold ends at a status that was reported (or where it began) and that
      no report outranks. */
  lemma {:induction false} FoldIsHighest(s: Status, reports: seq<Status>)
    requires !IsTerminal(s)
    ensures Fold(s, reports) == s || Fold(s, reports) in reports
    ensures forall i :: 0 <= i < |reports| ==> Rank(reports[i]) <= Rank(Fold(s, reports))
    ensures Rank(s) <= Rank(Fold(s, reports))
  {
    if reports != [] {
      FoldIsHighest(s, reports[..|reports| - 1]);
    }
  }

  /** Confluence, exactly: the order of the reports does not matter if and only if the intent was
      already over or all terminal reports agree. */
  lemma OrderIrrelevantIffTerminalsAgree(s: Status, reports: seq<Status>)
    ensures (IsTerminal(s) || TerminalsAgree(reports))
       <==> (forall other :: multiset(other) == multiset(reports) ==> Fold(s, other) == Fold(s, reports))
  {
    if IsTerminal(s) {
      forall other | multiset(other) == multiset(reports) ensures Fold(s, other) == Fold(s, reports) {
        FoldMovesForward(s, other);
        FoldMovesForward(s, reports);
      }
    } else if TerminalsAgree(reports) {
      forall other | multiset(other) == multiset(reports) ensures Fold(s, other) == Fold(s, reports) {
        SameReportsSameEnd(s, reports, other);
      }
    } else {
      var i, j :| 0 <= i < |reports| && 0 <= j < |reports|
        && IsTerminal(reports[i]) && IsTerminal(reports[j]) && reports[i] != reports[j];
      var a := ToFront(reports, i);
      var b := ToFront(reports, j);
      FirstTerminalWins(s, a);
      FirstTerminalWins(s, b);
    }
  }

  lemma SameReportsSameEnd(s: Status, a: seq<Status>, b: seq<Status>)
    requires !IsTerminal(s) && TerminalsAgree(a) && multiset(a) == multiset(b)
    ensures Fold(s, a) == Fold(s, b)
  {
    FoldIsHighest(s, a);
    FoldIsHighest(s, b);
    assert forall x :: x in multiset(a) <==> x in a;
    assert forall x :: x in multiset(b) <==> x in b;
    var x, y := Fold(s, a), Fold(s, b);
    assert x != s ==> x in b;
    assert y != s ==> y in a;
    assert Rank(x) == Rank(y);
  }

  lemma ToFront(reports: seq<Status>, i: nat) returns (other: seq<Status>)
    requires i < |reports|
    ensures multiset(other) == multiset(reports) && other != [] && other[0] == reports[i]
  {
    other := [reports[i]] + (reports[..i] + reports[i + 1..]);
    assert reports == reports[..i] + [reports[i]] + reports[i + 1..];
  }

  lemma {:induction false} FirstTerminalWins(s: Status, reports: seq<Status>)
    requires !IsTerminal(s) && reports != [] && IsTerminal(reports[0])
    ensures Fold(s, reports) == reports[0]
  {
    if |reports| > 1 {
      FirstTerminalWins(s, reports[..|reports| - 1]);
    } else {
      assert Fold(s, reports[..0]) == s;
    }
  }

  lemma {:induction false} FoldConcat(s: Status, a: seq<Status>, b: seq<Status>)
    ensures Fold(s, a + b) == Fold(Fold(s, a), b)
  {
    if b == [] {
      assert a + b == a;
    } else {
      FoldConcat(s, a, b[..|b| - 1]);
      assert (a + b)[..|a + b| - 1] == a + b[..|b| - 1];
    }
  }

  /** Reports that nothing in the status can follow change nothing. */
  lemma {:induction false} NothingNew(s: Status, reports: seq<Status>)
    requires forall i :: 0 <= i < |reports| ==> Rank(reports[i]) <= Rank(s)
    requires !IsTerminal(s)
    ensures Fold(s, reports) == s
  {
    if reports != [] {
      NothingNew(s, reports[..|reports| - 1]);
    }
  }

  /** Seeing a prefix first and then the whole list is the same as seeing the list once. */
  lemma FoldAbsorbsPrefix(s: Status, seen: seq<Status>, rest: seq<Status>)
    ensures Fold(Fold(s, seen), seen + rest) == Fold(s, seen + rest)
  {
    var mid := Fold(s, seen);
    FoldConcat(s, seen, rest);
    FoldConcat(mid, seen, rest);
    if IsTerminal(mid) {
      FoldMovesForward(mid, seen);
    } else {
      if IsTerminal(s) { FoldMovesForward(s, seen); }
      FoldIsHighest(s, seen);
      NothingNew(mid, seen);
    }
  }
}
