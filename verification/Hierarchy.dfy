/** The recursive query that checks the reporting hierarchy of a tenant. */
module Hierarchy {
  import opened Options
  import opened Sequences

  type Id = nat

  datatype Employee = Employee(id: Id, manager: Option<Id>)

  datatype Row = Row(id: Id, manager: Option<Id>, path: seq<Id>, cycle: bool)

  /** The employees of the tenant, in any order; `id` is the primary key. */
  ghost predicate Keyed(table: seq<Employee>) {
    forall i, j :: 0 <= i < j < |table| ==> table[i].id != table[j].id
  }

  /** The non-recursive term: one row per employee. */
  function Base(table: seq<Employee>): (rows: seq<Row>)
    ensures |rows| == |table|
    ensures forall i :: 0 <= i < |rows| ==> rows[i] == Row(table[i].id, table[i].manager, [table[i].id], false)
  {
    seq(|table|, i requires 0 <= i < |table| => Row(table[i].id, table[i].manager, [table[i].id], false))
  }

  /** What one row of the chain joins with. */
  function Joined(table: seq<Employee>, c: Row): seq<Row> {
    if table == [] then []
    else
      var e := table[0];
      (if !c.cycle && c.manager == Some(e.id) then [Row(e.id, e.manager, c.path + [e.id], e.id in c.path)] else [])
        + Joined(table[1..], c)
  }

  function JoinedAll(table: seq<Employee>, work: seq<Row>): seq<Row>
    decreases work
  {
    if work == [] then [] else Joined(table, work[0]) + JoinedAll(table, work[1..])
  }

  function Ids(table: seq<Employee>): set<Id> {
    set e | e in table :: e.id
  }

  /** Each employee of the walk exists and is managed by the next one. */
  ghost predicate ManagerWalk(table: seq<Employee>, p: seq<Id>) {
    && (forall i :: 0 <= i < |p| ==> p[i] in Ids(table))
    && forall i :: 0 < i < |p| ==> Employee(p[i - 1], Some(p[i])) in table
  }

  /** Following the managers never comes back to an employee. */
  ghost predicate AcyclicReporting(table: seq<Employee>) {
    forall p: seq<Id> :: ManagerWalk(table, p) ==> Distinct(p)
  }

  /** A walk of managers that stops at its first repetition, if it has come to one. */
  ghost predicate CutWalk(table: seq<Employee>, r: Row) {
    && |r.path| >= 1 && ManagerWalk(table, r.path) && Distinct(r.path[..|r.path| - 1])
    && r.id == r.path[|r.path| - 1] && Employee(r.id, r.manager) in table
    && (r.cycle <==> r.id in r.path[..|r.path| - 1])
  }

  /** The working table after `n - 1` rounds: all cut walks of length `n`, each once. */
  ghost predicate Round(table: seq<Employee>, work: seq<Row>, n: nat) {
    && Keyed(table) && n >= 1 && Distinct(work)
    && forall r :: r in work <==> CutWalk(table, r) && |r.path| == n
  }

  lemma {:induction false} AtMostTable(table: seq<Employee>)
    ensures |Ids(table)| <= |table|
  {
    if table != [] {
      AtMostTable(table[1..]);
      assert Ids(table) == {table[0].id} + Ids(table[1..]);
    }
  }

  lemma {:induction false} DistinctFits<T>(s: seq<T>, all: set<T>)
    requires (forall i, j :: 0 <= i < j < |s| ==> s[i] != s[j]) && forall x <- s :: x in all
    ensures |s| <= |all|
  {
    if s != [] {
      var last := s[|s| - 1];
      assert last in s;
      DistinctFits(s[..|s| - 1], all - {last});
    }
  }

  /** A cut walk has no more than one employee beyond the table. */
  lemma WalkFits(table: seq<Employee>, r: Row)
    requires CutWalk(table, r)
    ensures |r.path| <= |table| + 1
  {
    var before := r.path[..|r.path| - 1];
    forall x <- before ensures x in Ids(table) {
      var i :| 0 <= i < |before| && before[i] == x;
      assert r.path[i] in Ids(table);
    }
    DistinctFits(before, Ids(table));
    AtMostTable(table);
  }

  lemma {:induction false} JoinedMembers(table: seq<Employee>, c: Row, r: Row)
    ensures r in Joined(table, c) <==>
      && !c.cycle && c.manager == Some(r.id) && Employee(r.id, r.manager) in table
      && r.path == c.path + [r.id] && (r.cycle <==> r.id in c.path)
  {
    if table != [] {
      JoinedMembers(table[1..], c, r);
      assert Employee(r.id, r.manager) in table <==>
        table[0] == Employee(r.id, r.manager) || Employee(r.id, r.manager) in table[1..];
    }
  }

  lemma {:induction false} JoinedAllMembers(table: seq<Employee>, work: seq<Row>, r: Row)
    ensures r in JoinedAll(table, work) <==> exists c <- work :: r in Joined(table, c)
  {
    if work != [] {
      JoinedAllMembers(table, work[1..], r);
      if r in Joined(table, work[0]) {
        assert work[0] in work;
      } else if c :| c in work[1..] && r in Joined(table, c) {
        assert c in work;
      }
    }
  }

  lemma ExtendedWalk(table: seq<Employee>, c: Row, r: Row)
    requires Keyed(table) && CutWalk(table, c) && r in Joined(table, c)
    ensures CutWalk(table, r) && |r.path| == |c.path| + 1
  {
    JoinedMembers(table, c, r);
    assert r.path[..|r.path| - 1] == c.path;
    assert Distinct(c.path) by {
      assert c.path == c.path[..|c.path| - 1] + [c.id];
    }
    assert Employee(c.id, Some(r.id)) in table;
  }

  /** The walk without its last employee is the row that it was joined with. */
  lemma ShortenedWalk(table: seq<Employee>, r: Row) returns (c: Row)
    requires Keyed(table) && CutWalk(table, r) && |r.path| >= 2
    ensures CutWalk(table, c) && |c.path| == |r.path| - 1 && r in Joined(table, c)
  {
    var before := r.path[..|r.path| - 1];
    var id := before[|before| - 1];
    c := Row(id, Some(r.id), before, false);
    assert Employee(r.path[|r.path| - 2], Some(r.path[|r.path| - 1])) in table;
    assert ManagerWalk(table, before);
    assert id !in before[..|before| - 1];
    JoinedMembers(table, c, r);
  }

  lemma {:induction false} JoinsNothing(table: seq<Employee>, c: Row)
    requires forall i :: 0 <= i < |table| ==> c.manager != Some(table[i].id)
    ensures Joined(table, c) == []
  {
    if table != [] {
      JoinsNothing(table[1..], c);
    }
  }

  lemma {:induction false} JoinedAtMostOne(table: seq<Employee>, c: Row)
    requires Keyed(table)
    ensures |Joined(table, c)| <= 1
  {
    if table != [] {
      if c.manager == Some(table[0].id) {
        JoinsNothing(table[1..], c);
      } else {
        JoinedAtMostOne(table[1..], c);
      }
    }
  }

  /** Rows joined from different paths differ. */
  lemma JoinedApart(table: seq<Employee>, c: Row, d: Row, r: Row)
    requires c.path != d.path && r in Joined(table, c)
    ensures r !in Joined(table, d)
  {
    hide Joined;
    JoinedMembers(table, c, r);
    JoinedMembers(table, d, r);
    assert (c.path + [r.id])[..|r.path| - 1] == c.path;
    assert (d.path + [r.id])[..|d.path|] == d.path;
  }

  lemma NotJoinedAgain(table: seq<Employee>, work: seq<Row>, r: Row)
    requires work != [] && (forall i :: 0 < i < |work| ==> work[i].path != work[0].path) && r in Joined(table, work[0])
    ensures r !in JoinedAll(table, work[1..])
  {
    hide Joined;
    JoinedAllMembers(table, work[1..], r);
    forall c | c in work[1..] ensures r !in Joined(table, c) {
      var j :| 0 <= j < |work[1..]| && work[1..][j] == c;
      assert work[j + 1] == c;
      JoinedApart(table, work[0], c, r);
    }
  }

  lemma DistinctWithFirst<T>(first: T, rest: seq<T>)
    requires first !in rest && forall i, j :: 0 <= i < j < |rest| ==> rest[i] != rest[j]
    ensures var all := [first] + rest; forall i, j :: 0 <= i < j < |all| ==> all[i] != all[j]
  {
  }

  lemma {:induction false} JoinedAllDistinct(table: seq<Employee>, work: seq<Row>)
    requires Keyed(table) && (forall i, j :: 0 <= i < j < |work| ==> work[i].path != work[j].path)
    ensures Distinct(JoinedAll(table, work))
  {
    hide Joined;
    if work != [] {
      var (first, rest) := (Joined(table, work[0]), JoinedAll(table, work[1..]));
      JoinedAllDistinct(table, work[1..]);
      JoinedAtMostOne(table, work[0]);
      if first == [] {
        assert first + rest == rest;
      } else {
        assert first == [first[0]];
        NotJoinedAgain(table, work, first[0]);
        DistinctWithFirst(first[0], rest);
      }
    }
  }

  /** Keyed employees: a cut walk is determined by its path. */
  lemma PathDetermines(table: seq<Employee>, a: Row, b: Row)
    requires Keyed(table) && CutWalk(table, a) && CutWalk(table, b) && a.path == b.path
    ensures a == b
  {
    var i :| 0 <= i < |table| && table[i] == Employee(a.id, a.manager);
    var j :| 0 <= j < |table| && table[j] == Employee(b.id, b.manager);
  }

  lemma NextRound(table: seq<Employee>, work: seq<Row>, n: nat)
    requires Round(table, work, n)
    ensures Round(table, JoinedAll(table, work), n + 1)
  {
    forall i, j | 0 <= i < j < |work| ensures work[i].path != work[j].path {
      assert work[i] in work && work[j] in work;
      if work[i].path == work[j].path {
        PathDetermines(table, work[i], work[j]);
      }
    }
    JoinedAllDistinct(table, work);
    forall r ensures r in JoinedAll(table, work) <==> CutWalk(table, r) && |r.path| == n + 1 {
      JoinedAllMembers(table, work, r);
      if c :| c in work && r in Joined(table, c) {
        ExtendedWalk(table, c, r);
      }
      if CutWalk(table, r) && |r.path| == n + 1 {
        var c := ShortenedWalk(table, r);
        assert c in work;
      }
    }
  }

  lemma FirstRound(table: seq<Employee>)
    requires Keyed(table)
    ensures Round(table, Base(table), 1)
  {
    forall r ensures r in Base(table) <==> CutWalk(table, r) && |r.path| == 1 {
      if CutWalk(table, r) && |r.path| == 1 {
        var i :| 0 <= i < |table| && table[i] == Employee(r.id, r.manager);
        assert r == Base(table)[i];
      }
    }
  }

  /** `WITH RECURSIVE ... UNION ALL`: rounds until the working table is empty, which the walks' length forces. */
  function Rounds(table: seq<Employee>, work: seq<Row>, ghost n: nat): (rows: seq<Row>)
    requires Round(table, work, n)
    decreases |table| + 2 - n
  {
    if work == [] then []
    else
      assert |table| + 2 - n > 0 by {
        assert work[0] in work;
        WalkFits(table, work[0]);
      }
      NextRound(table, work, n);
      work + Rounds(table, JoinedAll(table, work), n + 1)
  }

  function Chain(table: seq<Employee>): seq<Row>
    requires Keyed(table)
  {
    FirstRound(table);
    Rounds(table, Base(table), 1)
  }

  /** `SELECT count(*) FROM chain WHERE cycle`. */
  function CountCycles(rows: seq<Row>): nat {
    if rows == [] then 0 else (if rows[0].cycle then 1 else 0) + CountCycles(rows[1..])
  }

  lemma {:induction false} RoundsAreWalks(table: seq<Employee>, work: seq<Row>, n: nat)
    requires Round(table, work, n)
    ensures Distinct(Rounds(table, work, n))
    ensures forall r :: r in Rounds(table, work, n) <==> CutWalk(table, r) && |r.path| >= n
    decreases |table| + 2 - n
  {
    if work == [] {
      forall r | CutWalk(table, r) && |r.path| >= n ensures false {
        NoLongerWalk(table, r, n);
      }
    } else {
      assert work[0] in work;
      WalkFits(table, work[0]);
      NextRound(table, work, n);
      RoundsAreWalks(table, JoinedAll(table, work), n + 1);
    }
  }

  /** Where there is no cut walk of length `n` there is no longer one. */
  lemma {:induction false} NoLongerWalk(table: seq<Employee>, r: Row, n: nat)
    requires Keyed(table) && n >= 1 && CutWalk(table, r) && |r.path| >= n
    ensures exists c :: CutWalk(table, c) && |c.path| == n
    decreases |r.path|
  {
    if |r.path| > n {
      var c := ShortenedWalk(table, r);
      NoLongerWalk(table, c, n);
    }
  }

  /** The rows of the chain are exactly the manager walks cut at their first repetition, each of them once. */
  lemma ChainIsCutWalks(table: seq<Employee>)
    requires Keyed(table)
    ensures Distinct(Chain(table))
    ensures forall r :: r in Chain(table) <==> CutWalk(table, r)
  {
    FirstRound(table);
    RoundsAreWalks(table, Base(table), 1);
  }

  lemma {:induction false} CountsNone(rows: seq<Row>)
    ensures CountCycles(rows) == 0 <==> forall r <- rows :: !r.cycle
  {
    if rows != [] {
      CountsNone(rows[1..]);
      assert forall r :: r in rows <==> r == rows[0] || r in rows[1..];
    }
  }

  /** A walk that comes back to an employee has a prefix that the query reports. */
  lemma {:induction false} FirstRepetition(table: seq<Employee>, p: seq<Id>) returns (r: Row)
    requires ManagerWalk(table, p) && !Distinct(p)
    ensures CutWalk(table, r) && r.cycle
  {
    var before := p[..|p| - 1];
    if Distinct(before) {
      assert p[|p| - 1] in Ids(table);
      var e :| e in table && e.id == p[|p| - 1];
      r := Row(e.id, e.manager, p, true);
    } else {
      assert ManagerWalk(table, before);
      r := FirstRepetition(table, before);
    }
  }

  /** The count is zero exactly when following the managers never comes back to an employee. */
  lemma CountDecidesAcyclicity(table: seq<Employee>)
    requires Keyed(table)
    ensures CountCycles(Chain(table)) == 0 <==> AcyclicReporting(table)
  {
    ChainIsCutWalks(table);
    CountsNone(Chain(table));
    if CountCycles(Chain(table)) == 0 {
      forall p: seq<Id> | ManagerWalk(table, p) ensures Distinct(p) {
        if !Distinct(p) {
          var r := FirstRepetition(table, p);
        }
      }
    } else {
      var r :| r in Chain(table) && r.cycle;
      assert !Distinct(r.path);
    }
  }

  lemma {:induction false} CountIsSize(rows: seq<Row>)
    requires Distinct(rows)
    ensures CountCycles(rows) == |set r | r in rows && r.cycle|
  {
    if rows != [] {
      var (first, rest) := (rows[0], rows[1..]);
      CountIsSize(rest);
      var counted := set r | r in rest && r.cycle;
      assert first !in rest;
      assert (set r | r in rows && r.cycle) == if first.cycle then counted + {first} else counted;
    }
  }

  /** The count is the number of manager walks that end at their first repetition. */
  lemma CountIsExact(table: seq<Employee>)
    requires Keyed(table)
    ensures forall r :: r in (set r | r in Chain(table) && r.cycle) <==> CutWalk(table, r) && r.cycle
    ensures CountCycles(Chain(table)) == |set r | r in Chain(table) && r.cycle|
  {
    ChainIsCutWalks(table);
    CountIsSize(Chain(table));
  }
}
