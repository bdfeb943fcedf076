/**
 Which snapshots are kept (internal/store/snapshots.go): the listing order and the retention limits,
 with automatic and manual snapshots budgeted apart.
 */
module Retention {

  datatype Row = Row(branch: string, auto: bool)

  /** The snapshots of one game by the milliseconds their ids and timestamps are made of. */
  type Rows = map<nat, Row>

  datatype Limits = Limits(auto: int, manual: int)

  function LimitFor(limits: Limits, row: Row): int {
    if row.auto then limits.auto else limits.manual
  }

  ghost function OfRow(rows: Rows, row: Row): set<nat> {
    set id | id in rows && rows[id] == row
  }

  ghost function Above(ids: set<nat>, id: nat): set<nat> {
    set j | j in ids && j > id
  }

  /** The later snapshots of the same branch and kind. */
  ghost function Newer(rows: Rows, row: Row, id: nat): set<nat> {
    Above(OfRow(rows, row), id)
  }

  ghost predicate Beyond(rows: Rows, limits: Limits, id: nat) {
    && id in rows && LimitFor(limits, rows[id]) > 0
    && |Newer(rows, rows[id], id)| >= LimitFor(limits, rows[id])
  }

  ghost predicate NewestFirst(ids: seq<nat>) {
    forall i, j :: 0 <= i < j < |ids| ==> ids[i] > ids[j]
  }

  method ListSnapshots(rows: Rows, branch: string) returns (ids: seq<nat>)
    ensures NewestFirst(ids)
    ensures forall id :: id in ids <==> id in rows && rows[id].branch == branch
  {
    ids := [];
    var todo := set id | id in rows && rows[id].branch == branch;
    ghost var all := todo;
    while todo != {}
      invariant todo <= all
      invariant NewestFirst(ids)
      invariant forall id :: id in ids <==> id in all && id !in todo
      invariant forall i, id :: 0 <= i < |ids| && id in todo ==> ids[i] > id
      decreases |todo|
    {
      var newest := Newest(todo);
      ids := ids + [newest];
      todo := todo - {newest};
    }
  }

  method Newest(ids: set<nat>) returns (m: nat)
    requires ids != {}
    ensures m in ids && forall id :: id in ids ==> id <= m
  {
    m :| m in ids;
    var todo := ids - {m};
    while todo != {}
      invariant m in ids && todo <= ids
      invariant forall id :: id in ids ==> id in todo || id <= m
      decreases |todo|
    {
      var id :| id in todo;
      if id > m {
        m := id;
      }
      todo := todo - {id};
    }
  }

  /** In a newest-first list of one branch and kind, position counts the newer ones. */
  lemma {:induction false} PositionIsNewerCount(rows: Rows, row: Row, ids: seq<nat>, i: nat)
    requires NewestFirst(ids) && i < |ids|
    requires forall id :: id in ids <==> id in rows && rows[id] == row
    ensures |Newer(rows, row, ids[i])| == i
  {
    var newer := set k | 0 <= k < i :: ids[k];
    forall j ensures j in newer <==> j in Newer(rows, row, ids[i]) {
      if j in Newer(rows, row, ids[i]) {
        assert j in ids;
        var k :| 0 <= k < |ids| && ids[k] == j;
        assert k < i;
      }
    }
    assert newer == Newer(rows, row, ids[i]);
    PrefixSize(ids, i);
  }

  lemma {:induction false} PrefixSize(ids: seq<nat>, i: nat)
    requires NewestFirst(ids) && i <= |ids|
    ensures |set k | 0 <= k < i :: ids[k]| == i
  {
    if i > 0 {
      PrefixSize(ids, i - 1);
      assert (set k | 0 <= k < i :: ids[k]) == (set k | 0 <= k < i - 1 :: ids[k]) + {ids[i - 1]};
    }
  }

  /** What the list has after its first limit elements is what is beyond the limit. */
  lemma TailIsBeyond(rows: Rows, row: Row, limits: Limits, ids: seq<nat>)
    requires NewestFirst(ids)
    requires forall id :: id in ids <==> id in rows && rows[id] == row
    ensures
      var limit := LimitFor(limits, row);
      var tail := if limit > 0 && |ids| > limit then ids[limit..] else [];
      forall id :: id in tail <==> id in rows && rows[id] == row && Beyond(rows, limits, id)
  {
    var limit := LimitFor(limits, row);
    var tail := if limit > 0 && |ids| > limit then ids[limit..] else [];
    forall id ensures id in tail <==> id in rows && rows[id] == row && Beyond(rows, limits, id) {
      if id in tail {
        var k :| 0 <= k < |tail| && tail[k] == id;
        assert ids[limit + k] == id;
        PositionIsNewerCount(rows, row, ids, limit + k);
      }
      if id in ids {
        var i :| 0 <= i < |ids| && ids[i] == id;
        PositionIsNewerCount(rows, row, ids, i);
        if limit > 0 && i >= limit {
          assert tail[i - limit] == id;
        }
      }
    }
  }

  /** Split the listing by kind, then cut each list at its limit. */
  method SnapshotsBeyondRetentionByKind(rows: Rows, branch: string, limits: Limits) returns (beyond: seq<nat>)
    ensures forall id :: id in beyond <==> id in rows && rows[id].branch == branch && Beyond(rows, limits, id)
  {
    hide Beyond;
    var all := ListSnapshots(rows, branch);
    var auto, manual := [], [];
    for i := 0 to |all|
      invariant NewestFirst(auto) && NewestFirst(manual)
      invariant forall id :: id in auto <==> id in all[..i] && rows[id].auto
      invariant forall id :: id in manual <==> id in all[..i] && !rows[id].auto
    {
      var id := all[i];
      assert all[..i + 1] == all[..i] + [id];
      assert forall k :: 0 <= k < |auto| ==> auto[k] in auto;
      assert forall k :: 0 <= k < |manual| ==> manual[k] in manual;
      if rows[id].auto {
        auto := auto + [id];
      } else {
        manual := manual + [id];
      }
    }
    assert all[..|all|] == all;
    TailIsBeyond(rows, Row(branch, true), limits, auto);
    TailIsBeyond(rows, Row(branch, false), limits, manual);
    beyond := [];
    if limits.auto > 0 && |auto| > limits.auto {
      beyond := beyond + auto[limits.auto..];
    }
    if limits.manual > 0 && |manual| > limits.manual {
      beyond := beyond + manual[limits.manual..];
    }
  }

  // ----- What pruning leaves

  /** The rows left when everything beyond the limits on the listed branches is deleted. */
  ghost function Pruned(rows: Rows, limits: Limits, branches: set<string>): Rows {
    map id | id in rows && !(rows[id].branch in branches && Beyond(rows, limits, id)) :: rows[id]
  }

  ghost function NewestOf(ids: set<nat>, n: nat): set<nat> {
    set id | id in ids && |Above(ids, id)| < n
  }

  lemma {:induction false} NewestCount(ids: set<nat>, n: nat)
    ensures |NewestOf(ids, n)| == if |ids| <= n then |ids| else n
    decreases |ids|
  {
    if ids == {} {
      assert NewestOf(ids, n) == {};
    } else {
      var low := Oldest(ids);
      var rest := ids - {low};
      NewestCount(rest, n);
      assert Above(ids, low) == rest;
      forall id | id in rest ensures Above(rest, id) == Above(ids, id) {
      }
      assert NewestOf(ids, n) == NewestOf(rest, n) + if |rest| < n then {low} else {};
    }
  }

  lemma {:induction false} Oldest(ids: set<nat>) returns (low: nat)
    requires ids != {}
    ensures low in ids && forall id :: id in ids ==> low <= id
    decreases |ids|
  {
    low :| low in ids;
    var lower := set id | id in ids && id < low;
    assert forall id :: id in ids && id < low ==> id in lower;
    if lower != {} {
      SubsetSize(lower, ids - {low});
      low := Oldest(lower);
    }
  }

  /**
   On every listed branch and for each kind with a limit, pruning keeps as many as the limit allows,
   and everything kept is newer than everything dropped.
   */
  lemma PruningKeepsNewest(rows: Rows, limits: Limits, branches: set<string>, row: Row)
    requires row.branch in branches && LimitFor(limits, row) > 0
    ensures
      var before, after := OfRow(rows, row), OfRow(Pruned(rows, limits, branches), row);
      && after <= before
      && |after| == (if |before| <= LimitFor(limits, row) then |before| else LimitFor(limits, row))
      && forall kept, dropped :: kept in after && dropped in before - after ==> kept > dropped
  {
    var n := LimitFor(limits, row);
    var before, after := OfRow(rows, row), OfRow(Pruned(rows, limits, branches), row);
    NewestCount(before, n);
    assert after == NewestOf(before, n);
    forall kept, dropped | kept in after && dropped in before - after ensures kept > dropped {
      if kept <= dropped {
        assert Newer(rows, row, dropped) <= Newer(rows, row, kept);
        SubsetSize(Newer(rows, row, dropped), Newer(rows, row, kept));
      }
    }
  }

  lemma {:induction false} SubsetSize(a: set<nat>, b: set<nat>)
    requires a <= b
    ensures |a| <= |b|
    decreases |a|
  {
    if a != {} {
      var x :| x in a;
      SubsetSize(a - {x}, b - {x});
    }
  }

  /** Pruning again changes nothing, and other branches and unlimited kinds are never touched. */
  lemma PruningSettles(rows: Rows, limits: Limits, branches: set<string>)
    ensures Pruned(Pruned(rows, limits, branches), limits, branches) == Pruned(rows, limits, branches)
    ensures forall id :: id in rows && (rows[id].branch !in branches || LimitFor(limits, rows[id]) <= 0)
              ==> id in Pruned(rows, limits, branches)
  {
    var after := Pruned(rows, limits, branches);
    forall id | id in after && after[id].branch in branches ensures !Beyond(after, limits, id) {
      SubsetSize(Newer(after, after[id], id), Newer(rows, rows[id], id));
    }
  }

  /** Deleting on one branch after another comes to the same. */
  lemma OneBranchMore(rows: Rows, limits: Limits, done: set<string>, branch: string, beyond: seq<nat>)
    requires branch !in done
    requires
      var cur := Pruned(rows, limits, done);
      forall id :: id in beyond <==> id in cur && cur[id].branch == branch && Beyond(cur, limits, id)
    ensures
      var cur := Pruned(rows, limits, done);
      Pruned(rows, limits, done + {branch}) == map id | id in cur && id !in beyond :: cur[id]
  {
    var cur := Pruned(rows, limits, done);
    forall id | id in rows && rows[id].branch == branch ensures Beyond(cur, limits, id) <==> Beyond(rows, limits, id) {
      assert OfRow(cur, rows[id]) == OfRow(rows, rows[id]);
    }
  }

  /** The later rows of the same branch and kind, all said at once. */
  lemma NewerAre(rows: Rows, id: nat)
    requires id in rows
    ensures Newer(rows, rows[id], id)
         == set j | j in rows && j > id && rows[j].branch == rows[id].branch && rows[j].auto == rows[id].auto
  {
  }

  /**
   A snapshot on a pruned branch stays exactly if its own kind has no limit, or fewer later ones of its
   kind are on its branch than that limit; what stays is not changed.
   */
  lemma KeptIff(rows: Rows, limits: Limits, branches: set<string>, id: nat)
    requires id in rows && rows[id].branch in branches
    ensures
      var after := Pruned(rows, limits, branches);
      var laterAuto := set j | j in rows && j > id && rows[j].branch == rows[id].branch && rows[j].auto;
      var laterManual := set j | j in rows && j > id && rows[j].branch == rows[id].branch && !rows[j].auto;
      && (rows[id].auto ==> (id in after <==> limits.auto <= 0 || |laterAuto| < limits.auto))
      && (!rows[id].auto ==> (id in after <==> limits.manual <= 0 || |laterManual| < limits.manual))
      && (id in after ==> after[id] == rows[id])
  {
    hide Newer;
    NewerAre(rows, id);
    var laterAuto := set j | j in rows && j > id && rows[j].branch == rows[id].branch && rows[j].auto;
    var laterManual := set j | j in rows && j > id && rows[j].branch == rows[id].branch && !rows[j].auto;
    assert Newer(rows, rows[id], id) == if rows[id].auto then laterAuto else laterManual;
  }

  /** Changing the limit of one kind changes nothing about what is kept of the other. */
  lemma LimitsActApart(rows: Rows, auto: int, auto': int, manual: int, manual': int, branches: set<string>, id: nat)
    requires id in rows
    ensures rows[id].auto ==> (id in Pruned(rows, Limits(auto, manual), branches) <==>
                               id in Pruned(rows, Limits(auto, manual'), branches))
    ensures !rows[id].auto ==> (id in Pruned(rows, Limits(auto, manual), branches) <==>
                                id in Pruned(rows, Limits(auto', manual), branches))
  {
  }

  // ----- Adding a snapshot and pruning

  /**
   A snapshot just taken survives its own pruning unless there are already as many later ones of
   its kind on the branch as may be kept: a clock set back loses it.
   */
  lemma NewSnapshotSurvivesIff(rows: Rows, limits: Limits, branches: set<string>, id: nat, row: Row)
    requires id !in rows && row.branch in branches
    ensures id in Pruned(rows[id := row], limits, branches) <==>
            LimitFor(limits, row) <= 0 || |Newer(rows, row, id)| < LimitFor(limits, row)
  {
    assert Newer(rows[id := row], row, id) == Newer(rows, row, id);
  }

  /** Taking a snapshot of one kind never evicts one of the other kind that was within its limit. */
  lemma KindsDoNotEvictEachOther(rows: Rows, limits: Limits, branches: set<string>, id: nat, row: Row, other: nat)
    requires id !in rows && other in rows && rows[other].auto != row.auto
    ensures other in Pruned(rows[id := row], limits, branches) <==> other in Pruned(rows, limits, branches)
  {
    assert Newer(rows[id := row], rows[other], other) == Newer(rows, rows[other], other);
  }
}
