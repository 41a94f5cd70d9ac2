/**
  The scoring-and-ranking transform of the ticket dashboard
  (`apply_priority_rules` and its two lookup tables in src/dashboard.py).

  A ticket's severity name and SLA name are looked up in two fixed
  tables, unknown labels falling back to a default rank; the two ranks are
  combined into a weighted priority score (lower is more urgent); the rows
  are sorted by (score, creation time) and numbered 1..N in that order.

  The score 0.7 * severity + 0.3 * SLA is kept in integer tenths,
  7 * severity + 3 * SLA, which is exact (see ScoreDeterminesRanks for why
  floating-point rounding cannot change the order of two rows).
*/
module Dashboard {
  import opened StringOrder

  datatype Option<T> = None | Some(value: T)

  /** A row of the raw ticket table: the three columns the transform reads,
      and every other column (name to cell text), passed through untouched. */
  datatype Ticket = Ticket(severity: string, sla: string, createdAt: string, passthrough: map<string, string>)

  /** The derived columns Severity_Rank, SLA_Rank and Priority_Score (in tenths). */
  datatype Ranks = Ranks(severityRank: int, slaRank: int, score: int)

  /** A row of the ranked table: the ticket, its derived columns and its Priority_Order. */
  datatype RankedTicket = RankedTicket(ticket: Ticket, ranks: Ranks, order: int)

  /** What `apply_priority_rules` hands back: the input table itself when it is
      empty, otherwise the sorted table with the four derived columns. */
  datatype Table = Unranked(tickets: seq<Ticket>) | Ranked(rows: seq<RankedTicket>)

  const SeverityMap: map<string, int> := map["Critical" := 1, "High" := 2, "Medium" := 3, "Low" := 4]
  const SlaMap: map<string, int> := map["1h" := 1, "4h" := 2, "1d" := 3, "3d" := 4, "7d" := 5]

  /** The ranks that `fillna` substitutes for labels missing from the tables. */
  const DefaultSeverityRank: int := 5
  const DefaultSlaRank: int := 6

  // ---------------------------------------------------------------------
  // Rank lookup with fallback

  /** `Severity` mapped through SEVERITY_MAP, an unknown (or empty) name giving 5.
      Labels are matched exactly, so case or surrounding spaces matter. */
  function SeverityRank(name: string): (r: int)
    ensures 1 <= r <= DefaultSeverityRank
    ensures r == 1 <==> name == "Critical"
    ensures r == 2 <==> name == "High"
    ensures r == 3 <==> name == "Medium"
    ensures r == 4 <==> name == "Low"
    ensures r == DefaultSeverityRank <==> name !in SeverityMap
  {
    if name in SeverityMap then SeverityMap[name] else DefaultSeverityRank
  }

  /** `SLA` mapped through SLA_MAP, an unknown (or empty) name giving 6. */
  function SlaRank(name: string): (r: int)
    ensures 1 <= r <= DefaultSlaRank
    ensures r == 1 <==> name == "1h"
    ensures r == 2 <==> name == "4h"
    ensures r == 3 <==> name == "1d"
    ensures r == 4 <==> name == "3d"
    ensures r == 5 <==> name == "7d"
    ensures r == DefaultSlaRank <==> name !in SlaMap
  {
    if name in SlaMap then SlaMap[name] else DefaultSlaRank
  }

  // ---------------------------------------------------------------------
  // Weighted score

  /** The three derived columns of one row; the score is in tenths. */
  function RanksOf(t: Ticket): (r: Ranks)
    ensures r.severityRank == SeverityRank(t.severity) && r.slaRank == SlaRank(t.sla)
    ensures 10 <= r.score <= 53
  {
    var sev := SeverityRank(t.severity);
    var sla := SlaRank(t.sla);
    Ranks(sev, sla, 7 * sev + 3 * sla)
  }

  function Score(t: Ticket): int
  {
    RanksOf(t).score
  }

  /** Two tickets tie on score only when they tie on both ranks: 7a + 3b = 7c + 3d
      forces 7 to divide d - b, which lies in -5..5. Distinct rank pairs therefore
      differ by at least 0.1, far above the rounding error of 0.7 * a + 0.3 * b in
      double precision, so the floating-point column orders rows as the tenths do. */
  lemma ScoreDeterminesRanks(x: Ticket, y: Ticket)
    requires Score(x) == Score(y)
    ensures SeverityRank(x.severity) == SeverityRank(y.severity)
    ensures SlaRank(x.sla) == SlaRank(y.sla)
  {
  }

  /** Lower ranks never give a higher score, and a strictly lower rank on either
      table with no higher rank on the other gives a strictly lower score. */
  lemma ScoreMonotone(x: Ticket, y: Ticket)
    requires SeverityRank(x.severity) <= SeverityRank(y.severity)
    requires SlaRank(x.sla) <= SlaRank(y.sla)
    ensures Score(x) <= Score(y)
    ensures SeverityRank(x.severity) < SeverityRank(y.severity) || SlaRank(x.sla) < SlaRank(y.sla)
            ==> Score(x) < Score(y)
  {
  }

  // ---------------------------------------------------------------------
  // Sort key: ascending by (Priority_Score, Created_At)

  /** `x` may come before `y` in the sorted table. */
  predicate KeyLe(x: Ticket, y: Ticket)
  {
    Score(x) < Score(y) || (Score(x) == Score(y) && StrLe(x.createdAt, y.createdAt))
  }

  /** `x` and `y` agree on both sort columns. */
  predicate SameKey(x: Ticket, y: Ticket)
  {
    Score(x) == Score(y) && x.createdAt == y.createdAt
  }

  lemma KeyLeTotal(x: Ticket, y: Ticket)
    ensures KeyLe(x, y) || KeyLe(y, x)
  {
    StrLeTotal(x.createdAt, y.createdAt);
  }

  lemma KeyLeTransitive(x: Ticket, y: Ticket, z: Ticket)
    requires KeyLe(x, y) && KeyLe(y, z)
    ensures KeyLe(x, z)
  {
    if Score(x) == Score(y) == Score(z) {
      StrLeTransitive(x.createdAt, y.createdAt, z.createdAt);
    }
  }

  /** Rows that may each come before the other tie on both sort columns, and back. */
  lemma KeyLeAntisymmetric(x: Ticket, y: Ticket)
    ensures KeyLe(x, y) && KeyLe(y, x) <==> SameKey(x, y)
  {
    if KeyLe(x, y) && KeyLe(y, x) {
      StrLeAntisymmetric(x.createdAt, y.createdAt);
    }
    if SameKey(x, y) {
      StrLeReflexive(x.createdAt);
    }
  }

  // ---------------------------------------------------------------------
  // Stable sort of the rows by the key

  ghost predicate Sorted(s: seq<Ticket>)
  {
    forall i, j :: 0 <= i < j < |s| ==> KeyLe(s[i], s[j])
  }

  /** The rows of `s` that tie with `k` on both sort columns, in their order in `s`. */
  function Ties(s: seq<Ticket>, k: Ticket): seq<Ticket>
  {
    if s == [] then [] else (if SameKey(s[0], k) then [s[0]] else []) + Ties(s[1..], k)
  }

  /** Puts `x` before the first row it may precede, so ahead of the rows it ties with. */
  function Insert(x: Ticket, s: seq<Ticket>): (r: seq<Ticket>)
    ensures multiset(r) == multiset(s) + multiset{x}
  {
    if s == [] || KeyLe(x, s[0]) then [x] + s
    else
      assert s == [s[0]] + s[1..];
      [s[0]] + Insert(x, s[1..])
  }

  /** Insertion sort, stable: rows that tie on both columns keep their input order. */
  function SortTickets(s: seq<Ticket>): (r: seq<Ticket>)
    ensures multiset(r) == multiset(s)
    ensures |r| == |s|
  {
    if s == [] then []
    else
      assert s == [s[0]] + s[1..];
      Insert(s[0], SortTickets(s[1..]))
  }

  lemma {:induction false} InsertSorted(x: Ticket, s: seq<Ticket>)
    requires Sorted(s)
    ensures Sorted(Insert(x, s))
  {
    var r := Insert(x, s);
    if s == [] {
    } else if KeyLe(x, s[0]) {
      forall i, j | 0 <= i < j < |r| ensures KeyLe(r[i], r[j]) {
        if i == 0 && j > 1 {
          KeyLeTransitive(x, s[0], s[j - 1]);
        }
      }
    } else {
      KeyLeTotal(x, s[0]);
      var t := Insert(x, s[1..]);
      assert Sorted(s[1..]);
      InsertSorted(x, s[1..]);
      forall i, j | 0 <= i < j < |r| ensures KeyLe(r[i], r[j]) {
        if i == 0 {
          var e := t[j - 1];
          assert e in multiset(t);
          if e == x {
          } else {
            assert e in multiset(s[1..]);
            var m :| 0 <= m < |s[1..]| && s[1..][m] == e;
            assert s[m + 1] == e;
          }
        } else {
          assert r[i] == t[i - 1] && r[j] == t[j - 1];
        }
      }
    }
  }

  lemma {:induction false} SortSorted(s: seq<Ticket>)
    ensures Sorted(SortTickets(s))
  {
    if s != [] {
      SortSorted(s[1..]);
      InsertSorted(s[0], SortTickets(s[1..]));
    }
  }

  lemma {:induction false} TiesAppend(a: seq<Ticket>, b: seq<Ticket>, k: Ticket)
    ensures Ties(a + b, k) == Ties(a, k) + Ties(b, k)
  {
    if a == [] {
      assert a + b == b;
    } else {
      assert (a + b)[1..] == a[1..] + b;
      TiesAppend(a[1..], b, k);
    }
  }

  lemma {:induction false} InsertTies(x: Ticket, s: seq<Ticket>, k: Ticket)
    ensures Ties(Insert(x, s), k) == (if SameKey(x, k) then [x] else []) + Ties(s, k)
  {
    if s == [] || KeyLe(x, s[0]) {
      TiesAppend([x], s, k);
      TiesSingle(x, k);
    } else {
      var t := Insert(x, s[1..]);
      assert Insert(x, s) == [s[0]] + t;
      assert s == [s[0]] + s[1..];
      KeyLeAntisymmetric(x, s[0]);
      assert !(SameKey(x, k) && SameKey(s[0], k));
      InsertTies(x, s[1..], k);
      TiesAppend([s[0]], t, k);
      TiesAppend([s[0]], s[1..], k);
      TiesSingle(s[0], k);
    }
  }

  lemma TiesSingle(x: Ticket, k: Ticket)
    ensures Ties([x], k) == if SameKey(x, k) then [x] else []
  {
    assert [x][1..] == [];
  }

  /** The sort is stable: the rows tied with any `k` come out in their input order. */
  lemma {:induction false} SortStable(s: seq<Ticket>, k: Ticket)
    ensures Ties(SortTickets(s), k) == Ties(s, k)
  {
    if s != [] {
      SortStable(s[1..], k);
      InsertTies(s[0], SortTickets(s[1..]), k);
    }
  }

  /** `a` and `b` list the rows tied on each key in the same order. */
  ghost predicate SameTieOrder(a: seq<Ticket>, b: seq<Ticket>)
  {
    forall k :: Ties(a, k) == Ties(b, k)
  }

  /** The first row of a sorted sequence may precede every row of it. */
  lemma SortedHeadFirst(a: seq<Ticket>, x: Ticket)
    requires Sorted(a) && x in a
    ensures KeyLe(a[0], x)
  {
    var i :| 0 <= i < |a| && a[i] == x;
    if i == 0 {
      StrLeReflexive(x.createdAt);
    }
  }

  /** Sorted rearrangements of the same rows start with rows tied on the key. */
  lemma SortedHeadsTie(a: seq<Ticket>, b: seq<Ticket>)
    requires Sorted(a) && Sorted(b) && a != []
    requires multiset(a) == multiset(b)
    ensures b != [] && SameKey(a[0], b[0])
  {
    assert a[0] in multiset(b);
    assert b != [] && b[0] in multiset(a);
    SortedHeadFirst(b, a[0]);
    SortedHeadFirst(a, b[0]);
    KeyLeAntisymmetric(a[0], b[0]);
  }

  lemma TiesTail(a: seq<Ticket>, b: seq<Ticket>, k: Ticket)
    requires a != [] && b != [] && a[0] == b[0]
    requires Ties(a, k) == Ties(b, k)
    ensures Ties(a[1..], k) == Ties(b[1..], k)
  {
    var h := if SameKey(a[0], k) then [a[0]] else [];
    var ta, tb := Ties(a[1..], k), Ties(b[1..], k);
    assert Ties(a, k) == h + ta;
    assert Ties(b, k) == h + tb;
    assert ta == (h + ta)[|h|..];
    assert tb == (h + tb)[|h|..];
  }

  /** Sorted rearrangements with the same order among tied rows start with the same row. */
  lemma SortedHeadsEqual(a: seq<Ticket>, b: seq<Ticket>)
    requires Sorted(a) && Sorted(b) && a != []
    requires multiset(a) == multiset(b)
    requires SameTieOrder(a, b)
    ensures b != [] && a[0] == b[0]
  {
    SortedHeadsTie(a, b);
    var h := a[0];
    assert SameKey(b[0], h);
    assert Ties(a, h) == [a[0]] + Ties(a[1..], h);
    assert Ties(b, h) == [b[0]] + Ties(b[1..], h);
    assert Ties(a, h) == Ties(b, h);
    assert Ties(a, h)[0] == a[0] && Ties(b, h)[0] == b[0];
  }

  /** Removing the same first row keeps the rows and the tie order equal. */
  lemma TailsAgree(a: seq<Ticket>, b: seq<Ticket>)
    requires a != [] && b != [] && a[0] == b[0]
    requires multiset(a) == multiset(b)
    requires SameTieOrder(a, b)
    ensures multiset(a[1..]) == multiset(b[1..])
    ensures SameTieOrder(a[1..], b[1..])
  {
    assert a == [a[0]] + a[1..] && b == [b[0]] + b[1..];
    assert multiset(a) == multiset{a[0]} + multiset(a[1..]);
    assert multiset(b) == multiset{a[0]} + multiset(b[1..]);
    assert multiset(a[1..]) == multiset(a) - multiset{a[0]};
    assert multiset(b[1..]) == multiset(b) - multiset{a[0]};
    forall k ensures Ties(a[1..], k) == Ties(b[1..], k) {
      TiesTail(a, b, k);
    }
  }

  /** Two sorted sequences with the same rows, and the same order among tied rows, are equal. */
  lemma {:induction false} SortedUnique(a: seq<Ticket>, b: seq<Ticket>)
    requires Sorted(a) && Sorted(b)
    requires multiset(a) == multiset(b)
    requires SameTieOrder(a, b)
    ensures a == b
  {
    if a == [] {
      assert |b| == |multiset(b)| == 0;
    } else {
      SortedHeadsEqual(a, b);
      TailsAgree(a, b);
      assert Sorted(a[1..]) && Sorted(b[1..]);
      SortedUnique(a[1..], b[1..]);
      assert a == [a[0]] + a[1..] && b == [b[0]] + b[1..];
    }
  }

  /** SortTickets is the one sorted, stable rearrangement of its input. */
  lemma SortCharacterized(s: seq<Ticket>, r: seq<Ticket>)
    ensures r == SortTickets(s) <==> Sorted(r) && multiset(r) == multiset(s) && SameTieOrder(r, s)
  {
    var q := SortTickets(s);
    SortSorted(s);
    forall k ensures Ties(q, k) == Ties(s, k) {
      SortStable(s, k);
    }
    assert SameTieOrder(q, s);
    if Sorted(r) && multiset(r) == multiset(s) && SameTieOrder(r, s) {
      assert SameTieOrder(r, q);
      SortedUnique(r, q);
    }
  }

  // ---------------------------------------------------------------------
  // The transform

  /** Attaches the derived columns and Priority_Order = position + 1, as
      `reset_index` followed by `index + 1` does: the tickets keep their order,
      the orders rise along the table and are exactly 1..N. */
  function Number(sorted: seq<Ticket>): (rows: seq<RankedTicket>)
    ensures TicketsOf(rows) == sorted
    ensures forall i, j :: 0 <= i < j < |rows| ==> rows[i].order < rows[j].order
    ensures forall n :: n in Orders(rows) <==> 1 <= n <= |sorted|
  {
    var rows := seq(|sorted|, i requires 0 <= i < |sorted| => RankedTicket(sorted[i], RanksOf(sorted[i]), i + 1));
    assert forall n :: n in Orders(rows) <==> 1 <= n <= |sorted| by {
      forall n | 1 <= n <= |sorted| ensures n in Orders(rows) {
        assert rows[n - 1] in rows;
      }
    }
    rows
  }

  /** The ticket column of a ranked table. */
  function TicketsOf(rows: seq<RankedTicket>): (ts: seq<Ticket>)
    ensures |ts| == |rows|
  {
    seq(|rows|, i requires 0 <= i < |rows| => rows[i].ticket)
  }

  /** `apply_priority_rules` as a function of the input rows. The ranks depend on
      the ticket alone, so sorting the tickets and then attaching the ranks gives
      the table that sorting the annotated rows gives. */
  function PriorityRules(tickets: seq<Ticket>): (t: Table)
    ensures tickets == [] <==> t == Unranked(tickets)
    ensures tickets != [] ==> t.Ranked? && |t.rows| == |tickets|
  {
    if tickets == [] then Unranked(tickets) else Ranked(Number(SortTickets(tickets)))
  }

  /** No ticket is dropped or duplicated, and each keeps its passthrough columns. */
  lemma RankedIsPermutation(tickets: seq<Ticket>)
    requires tickets != []
    ensures multiset(TicketsOf(PriorityRules(tickets).rows)) == multiset(tickets)
  {
  }

  /** Every output row carries its own ticket's looked-up ranks and weighted score. */
  lemma RankedColumns(tickets: seq<Ticket>)
    requires tickets != []
    ensures forall r :: r in PriorityRules(tickets).rows ==>
              && r.ranks.severityRank == SeverityRank(r.ticket.severity)
              && r.ranks.slaRank == SlaRank(r.ticket.sla)
              && r.ranks.score == 7 * r.ranks.severityRank + 3 * r.ranks.slaRank
  {
  }

  /** The output is non-decreasing by score, and by Created_At among equal scores. */
  lemma RankedIsSorted(tickets: seq<Ticket>)
    requires tickets != []
    ensures var rows := PriorityRules(tickets).rows;
            forall i, j :: 0 <= i < j < |rows| ==>
              && rows[i].ranks.score <= rows[j].ranks.score
              && (rows[i].ranks.score == rows[j].ranks.score ==>
                    StrLe(rows[i].ticket.createdAt, rows[j].ticket.createdAt))
  {
    SortSorted(tickets);
  }

  /** Rows tied on both score and Created_At keep their input order. */
  lemma RankedIsStable(tickets: seq<Ticket>, k: Ticket)
    requires tickets != []
    ensures Ties(TicketsOf(PriorityRules(tickets).rows), k) == Ties(tickets, k)
  {
    SortStable(tickets, k);
  }

  /** The Priority_Order values of a ranked table. */
  function Orders(rows: seq<RankedTicket>): set<int>
  {
    set r | r in rows :: r.order
  }

  /** Priority_Order is the 1-based position, so the orders are exactly 1..N. */
  lemma RankedOrderIsDense(tickets: seq<Ticket>)
    requires tickets != []
    ensures var rows := PriorityRules(tickets).rows;
            && (forall i :: 0 <= i < |rows| ==> rows[i].order == i + 1)
            && (forall n :: n in Orders(rows) <==> 1 <= n <= |tickets|)
  {
    var rows := PriorityRules(tickets).rows;
    forall n ensures n in Orders(rows) <==> 1 <= n <= |tickets| {
      if 1 <= n <= |tickets| {
        assert rows[n - 1] in rows;
      }
    }
  }

  /** Priority_Order agrees with the sort key: a smaller order never has a larger
      score, and a smaller score, or an equal score with an earlier Created_At,
      always gets a smaller order. */
  lemma OrderRespectsKey(tickets: seq<Ticket>)
    requires tickets != []
    ensures var rows := PriorityRules(tickets).rows;
            forall x, y :: x in rows && y in rows ==>
              && (x.order < y.order ==> x.ranks.score <= y.ranks.score)
              && (x.ranks.score < y.ranks.score ==> x.order < y.order)
              && ((x.ranks.score == y.ranks.score && StrLe(x.ticket.createdAt, y.ticket.createdAt)
                   && x.ticket.createdAt != y.ticket.createdAt) ==> x.order < y.order)
  {
    RankedIsSorted(tickets);
    RankedOrderIsDense(tickets);
    OrderFollowsPosition(PriorityRules(tickets).rows);
  }

  /** In a table numbered by position and sorted by the key, the order agrees with the key. */
  lemma OrderFollowsPosition(rows: seq<RankedTicket>)
    requires forall i :: 0 <= i < |rows| ==> rows[i].order == i + 1
    requires forall i, j :: 0 <= i < j < |rows| ==>
               && rows[i].ranks.score <= rows[j].ranks.score
               && (rows[i].ranks.score == rows[j].ranks.score ==>
                     StrLe(rows[i].ticket.createdAt, rows[j].ticket.createdAt))
    ensures forall x, y :: x in rows && y in rows ==>
              && (x.order < y.order ==> x.ranks.score <= y.ranks.score)
              && (x.ranks.score < y.ranks.score ==> x.order < y.order)
              && ((x.ranks.score == y.ranks.score && StrLe(x.ticket.createdAt, y.ticket.createdAt)
                   && x.ticket.createdAt != y.ticket.createdAt) ==> x.order < y.order)
  {
    forall x, y | x in rows && y in rows
      ensures x.order < y.order ==> x.ranks.score <= y.ranks.score
      ensures x.ranks.score < y.ranks.score ==> x.order < y.order
      ensures (x.ranks.score == y.ranks.score && StrLe(x.ticket.createdAt, y.ticket.createdAt)
               && x.ticket.createdAt != y.ticket.createdAt) ==> x.order < y.order
    {
      var i :| 0 <= i < |rows| && rows[i] == x;
      var j :| 0 <= j < |rows| && rows[j] == y;
      if j < i && x.ranks.score == y.ranks.score && StrLe(x.ticket.createdAt, y.ticket.createdAt) {
        StrLeAntisymmetric(x.ticket.createdAt, y.ticket.createdAt);
      }
    }
  }

  // ---------------------------------------------------------------------
  // Worked examples

  /** A known severity and SLA: Critical within 1h scores 1.0, the most urgent score. */
  lemma CriticalOneHourScore(passthrough: map<string, string>, createdAt: string)
    ensures Score(Ticket("Critical", "1h", createdAt, passthrough)) == 10
  {
  }

  /** An unrecognised severity falls back to rank 5: Unknown within 4h scores 4.1. */
  lemma UnknownSeverityScore(severity: string, passthrough: map<string, string>, createdAt: string)
    requires severity !in SeverityMap
    ensures Score(Ticket(severity, "4h", createdAt, passthrough)) == 41
  {
  }

  /** Severity does not dominate: a Critical ticket with an unknown SLA (2.5)
      ranks after a High ticket due within 1h (1.7). */
  lemma CriticalCanTrailHigh(createdAt: string)
    ensures var critical := Ticket("Critical", "2w", createdAt, map[]);
            var high := Ticket("High", "1h", createdAt, map[]);
            PriorityRules([critical, high]).rows[0].ticket == high
  {
  }

  /** Two rows that may not come in their input order are swapped. */
  lemma SortSwapsPair(x: Ticket, y: Ticket)
    requires !KeyLe(x, y)
    ensures SortTickets([x, y]) == [y, x]
  {
    assert [x, y][1..] == [y];
    assert [y][1..] == [];
    assert SortTickets([y]) == Insert(y, []) == [y];
    assert Insert(x, [y]) == [y] + Insert(x, []);
  }

  /** Two rows already in key order keep their order. */
  lemma SortKeepsPair(x: Ticket, y: Ticket)
    requires KeyLe(x, y)
    ensures SortTickets([x, y]) == [x, y]
  {
    assert [x, y][1..] == [y];
    assert [y][1..] == [];
    assert SortTickets([y]) == Insert(y, []) == [y];
  }

  /** Same score, and a date-only Created_At against the same date with a time:
      the shorter string is a prefix of the longer, so it sorts first. */
  lemma DateBeforeDateTime()
    ensures var withTime := Ticket("High", "1d", "2024-01-02 10:00", map[]);
            var dateOnly := Ticket("High", "1d", "2024-01-02", map[]);
            && PriorityRules([withTime, dateOnly]).rows[0].ticket == dateOnly
            && PriorityRules([dateOnly, withTime]).rows[0].ticket == dateOnly
  {
    var withTime := Ticket("High", "1d", "2024-01-02 10:00", map[]);
    var dateOnly := Ticket("High", "1d", "2024-01-02", map[]);
    assert StrLe("2024-01-02", "2024-01-02 10:00") by {
      assert "2024-01-02" <= "2024-01-02 10:00";
      PrefixStrLe("2024-01-02", "2024-01-02 10:00");
    }
    assert !StrLe("2024-01-02 10:00", "2024-01-02") by {
      if StrLe("2024-01-02 10:00", "2024-01-02") {
        StrLeAntisymmetric("2024-01-02", "2024-01-02 10:00");
        assert false;
      }
    }
    assert Score(withTime) == Score(dateOnly);
    SortSwapsPair(withTime, dateOnly);
    SortKeepsPair(dateOnly, withTime);
  }

  /** Two rows: Medium/3d (3.3) created first and Critical/1h (1.0) created later
      come out Critical first with order 1, Medium second with order 2. */
  lemma TwoRowExample()
    ensures var medium := Ticket("Medium", "3d", "2024-01-02", map[]);
            var critical := Ticket("Critical", "1h", "2024-01-03", map[]);
            PriorityRules([medium, critical])
              == Ranked([RankedTicket(critical, Ranks(1, 1, 10), 1), RankedTicket(medium, Ranks(3, 4, 33), 2)])
  {
  }

  // ---------------------------------------------------------------------
  // The caller's table, which the transform updates in place

  /** A loaded ticket table. `ranks` holds the Severity_Rank, SLA_Rank and
      Priority_Score columns once they have been added. */
  class TicketFrame {
    var rows: seq<Ticket>
    var ranks: Option<seq<Ranks>>

    /** The rank columns, once added, have one entry per row. */
    ghost predicate Valid()
      reads this
    {
      ranks.Some? ==> |ranks.value| == |rows|
    }

    /** A freshly loaded table has only the columns of the file. */
    constructor (rows: seq<Ticket>)
      ensures Valid() && this.rows == rows && ranks == None
    {
      this.rows := rows;
      ranks := None;
    }

    /** Runs the transform on this table. An empty table is returned as it is.
        Otherwise the three rank columns are added to THIS table, whose rows keep
        their order, and a new sorted and numbered table is returned. */
    method ApplyPriorityRules() returns (result: Table)
      requires Valid()
      modifies this
      ensures Valid() && rows == old(rows)
      ensures result == PriorityRules(rows)
      ensures rows == [] ==> ranks == old(ranks)
      ensures rows != [] ==> ranks.Some? && forall i :: 0 <= i < |rows| ==> ranks.value[i] == RanksOf(rows[i])
    {
      if rows == [] {
        result := Unranked(rows);
        return;
      }
      var rs := rows;
      ranks := Some(seq(|rs|, i requires 0 <= i < |rs| => RanksOf(rs[i])));
      var sorted := SortTickets(rs);
      result := Ranked(Number(sorted));
    }
  }
}
