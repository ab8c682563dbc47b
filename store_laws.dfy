/**
 * Laws of the backend's write and delete operations when they are applied
 * one after another, as the seed and clear loops apply them: what repeated
 * upserts and inserts leave in a collection, and what a sequence of
 * deletes by `user_id` does and does not remove.
 */
module StoreLaws {
  import opened Backend

  /** The rows after the successful writes `adds`, applied in order. */
  function Applied(policy: Policy, rows: seq<Row>, adds: seq<Row>): seq<Row>
    decreases |adds|
  {
    if adds == [] then rows
    else WriteRows(policy, Applied(policy, rows, adds[..|adds| - 1]), adds[|adds| - 1])
  }

  /** Every stored row was there before or is one of the rows written. */
  lemma {:induction false} AppliedOnlyFromInputs(policy: Policy, rows: seq<Row>, adds: seq<Row>)
    ensures forall r :: r in Applied(policy, rows, adds) ==> r in rows || r in adds
    decreases |adds|
  {
    if adds != [] {
      var init, last := adds[..|adds| - 1], adds[|adds| - 1];
      AppliedOnlyFromInputs(policy, rows, init);
      var before := Applied(policy, rows, init);
      assert forall r :: r in init ==> r in adds;
      match policy
      case Insert =>
      case Upsert(column) =>
        var after := Upserted(before, last, column);
        forall r | r in after ensures r in rows || r in adds {
          var j :| 0 <= j < |after| && after[j] == r;
          if j < |before| && after[j] != before[j] {
            assert after[j] == last by {
              var v := KeyOf(last, column).value;
              var k := FirstMatch(before, column, v);
              assert after == before[k := last];
            }
          }
        }
    }
  }

  /** Inserts append: the collection grows by exactly the rows written, in order. */
  /** Writing one more row continues the fold. */
  lemma AppliedSnoc(policy: Policy, rows: seq<Row>, adds: seq<Row>, row: Row)
    ensures Applied(policy, rows, adds + [row]) == WriteRows(policy, Applied(policy, rows, adds), row)
  {
    var all := adds + [row];
    assert all[..|all| - 1] == adds && all[|all| - 1] == row;
  }

  lemma {:induction false} AppliedInsert(rows: seq<Row>, adds: seq<Row>)
    ensures Applied(Insert, rows, adds) == rows + adds
    decreases |adds|
  {
    if adds != [] {
      var init := adds[..|adds| - 1];
      AppliedInsert(rows, init);
      assert init + [adds[|adds| - 1]] == adds;
    }
  }

  /** Seeding an insert-only collection twice with N rows stores 2N new rows. */
  lemma InsertRerunDuplicates(rows: seq<Row>, adds: seq<Row>)
    ensures |Applied(Insert, Applied(Insert, rows, adds), adds)| == |rows| + 2 * |adds|
  {
    AppliedInsert(rows, adds);
    AppliedInsert(rows + adds, adds);
  }

  /** A later upsert with the same key value fully supersedes an earlier one. */
  lemma UpsertSupersedes(rows: seq<Row>, first: Row, second: Row, column: string)
    requires KeyOf(first, column).Some? && KeyOf(first, column) == KeyOf(second, column)
    ensures Upserted(Upserted(rows, first, column), second, column) == Upserted(rows, second, column)
  {
    var v := KeyOf(first, column).value;
    var i := FirstMatch(rows, column, v);
    var once := Upserted(rows, first, column);
    if i == |rows| {
      assert once == rows + [first];
      assert Matches(once[|rows|], column, v);
      assert FirstMatch(once, column, v) == |rows|;
      assert once[|rows| := second] == rows + [second];
    } else {
      assert once == rows[i := first];
      assert Matches(once[i], column, v);
      assert FirstMatch(once, column, v) == i;
      assert once[i := second] == rows[i := second];
    }
  }

  /** Upserting the same row twice is the same as upserting it once. */
  lemma UpsertIdempotent(rows: seq<Row>, row: Row, column: string)
    requires KeyOf(row, column).Some?
    ensures Upserted(Upserted(rows, row, column), row, column) == Upserted(rows, row, column)
  {
    UpsertSupersedes(rows, row, row, column);
  }

  /** Upsert never loses a key value: any value present before is present after. */
  lemma UpsertKeepsKeys(rows: seq<Row>, row: Row, column: string, value: string)
    requires KeyPresent(rows, column, value)
    ensures KeyPresent(Upserted(rows, row, column), column, value)
  {
    var after := Upserted(rows, row, column);
    var j :| 0 <= j < |rows| && Matches(rows[j], column, value);
    if SameKey(rows[j], row, column) {
      assert Matches(row, column, value);
      var k :| 0 <= k < |after| && after[k] == row;
    } else {
      assert after[j] == rows[j];
    }
  }

  /** Upsert keeps a unique constraint on the conflict column. */
  lemma UpsertKeepsUnique(rows: seq<Row>, row: Row, column: string)
    requires UniqueOn(rows, column)
    ensures UniqueOn(Upserted(rows, row, column), column)
  {
    var after := Upserted(rows, row, column);
    match KeyOf(row, column)
    case None =>
      assert after == rows + [row];
    case Some(v) =>
      var i := FirstMatch(rows, column, v);
      if i == |rows| {
        assert after == rows + [row];
        forall a, b | 0 <= a < b < |after| ensures !SameKey(after[a], after[b], column) {
          if b == |rows| {
            assert !Matches(rows[a], column, v);
          }
        }
      } else {
        assert after == rows[i := row];
        forall a, b | 0 <= a < b < |after| ensures !SameKey(after[a], after[b], column) {
          assert SameKey(rows[i], row, column);
          if a == i {
            assert !SameKey(rows[i], rows[b], column);
          } else if b == i {
            assert !SameKey(rows[a], rows[i], column);
          }
        }
      }
  }

  /** Repeated upserts keep a unique constraint on the conflict column. */
  lemma {:induction false} AppliedUpsertUnique(rows: seq<Row>, adds: seq<Row>, column: string)
    requires UniqueOn(rows, column)
    ensures UniqueOn(Applied(Upsert(column), rows, adds), column)
    decreases |adds|
  {
    if adds != [] {
      AppliedUpsertUnique(rows, adds[..|adds| - 1], column);
      UpsertKeepsUnique(Applied(Upsert(column), rows, adds[..|adds| - 1]), adds[|adds| - 1], column);
    }
  }

  /** Key values present before repeated upserts are still present after them. */
  lemma {:induction false} AppliedUpsertKeepsKeys(rows: seq<Row>, adds: seq<Row>, column: string, value: string)
    requires KeyPresent(rows, column, value)
    ensures KeyPresent(Applied(Upsert(column), rows, adds), column, value)
    decreases |adds|
  {
    if adds != [] {
      AppliedUpsertKeepsKeys(rows, adds[..|adds| - 1], column, value);
      UpsertKeepsKeys(Applied(Upsert(column), rows, adds[..|adds| - 1]), adds[|adds| - 1], column, value);
    }
  }

  /** After repeated upserts, the key value of every row written is stored. */
  lemma {:induction false} AppliedUpsertCovers(rows: seq<Row>, adds: seq<Row>, column: string)
    ensures forall j :: 0 <= j < |adds| && KeyOf(adds[j], column).Some? ==>
              KeyPresent(Applied(Upsert(column), rows, adds), column, KeyOf(adds[j], column).value)
    decreases |adds|
  {
    if adds != [] {
      var init, last := adds[..|adds| - 1], adds[|adds| - 1];
      var before := Applied(Upsert(column), rows, init);
      var after := Upserted(before, last, column);
      AppliedUpsertCovers(rows, init, column);
      forall j | 0 <= j < |adds| && KeyOf(adds[j], column).Some?
        ensures KeyPresent(after, column, KeyOf(adds[j], column).value)
      {
        if j == |adds| - 1 {
          var k :| 0 <= k < |after| && after[k] == last;
          assert Matches(after[k], column, KeyOf(last, column).value);
        } else {
          assert init[j] == adds[j];
          UpsertKeepsKeys(before, last, column, KeyOf(adds[j], column).value);
        }
      }
    }
  }

  /** Upserts whose key values are all present already add no row. */
  lemma {:induction false} UpsertPresentAddsNothing(rows: seq<Row>, adds: seq<Row>, column: string)
    requires forall j :: 0 <= j < |adds| ==>
               KeyOf(adds[j], column).Some? && KeyPresent(rows, column, KeyOf(adds[j], column).value)
    ensures |Applied(Upsert(column), rows, adds)| == |rows|
    decreases |adds|
  {
    if adds != [] {
      var init, last := adds[..|adds| - 1], adds[|adds| - 1];
      assert forall j :: 0 <= j < |init| ==> init[j] == adds[j];
      UpsertPresentAddsNothing(rows, init, column);
      AppliedUpsertKeepsKeys(rows, init, column, KeyOf(last, column).value);
    }
  }

  /**
   * Re-seeding an upsert collection with the same rows stores no new row:
   * one row per distinct key value, however often the seed runs.
   */
  lemma UpsertRerunAddsNothing(rows: seq<Row>, adds: seq<Row>, column: string)
    requires forall j :: 0 <= j < |adds| ==> KeyOf(adds[j], column).Some?
    ensures |Applied(Upsert(column), Applied(Upsert(column), rows, adds), adds)|
         == |Applied(Upsert(column), rows, adds)|
  {
    AppliedUpsertCovers(rows, adds, column);
    UpsertPresentAddsNothing(Applied(Upsert(column), rows, adds), adds, column);
  }

  /** The rows left after `.delete().eq(column, id)` for each id of `ids` in turn. */
  function Kept(rows: seq<Row>, column: string, ids: seq<Option<string>>): seq<Row>
    decreases |ids|
  {
    if ids == [] then rows
    else Without(Kept(rows, column, ids[..|ids| - 1]), column, ids[|ids| - 1])
  }

  /** The id targets the row: a delete by it removes the row. */
  predicate Targets(id: Option<string>, row: Row, column: string) {
    id.Some? && Matches(row, column, id.value)
  }

  /** The rows not carrying the demo marker, in order. */
  function Unmarked(rows: seq<Row>): (r: seq<Row>)
    ensures forall x :: x in r ==> x in rows && !x.demoData
    ensures forall i :: 0 <= i < |rows| && !rows[i].demoData ==> rows[i] in r
  {
    if rows == [] then []
    else if rows[0].demoData then Unmarked(rows[1..])
    else [rows[0]] + Unmarked(rows[1..])
  }

  /** Every row is either marked or unmarked, so the select returns one id per row not left unmarked. */
  lemma {:induction false} MarkedUnmarkedCount(rows: seq<Row>)
    ensures |Marked(rows)| + |Unmarked(rows)| == |rows|
    ensures |SelectMarked(rows, "user_id")| == |rows| - |Unmarked(rows)|
    decreases |rows|
  {
    if rows != [] {
      MarkedUnmarkedCount(rows[1..]);
    }
  }

  /** A sequence of deletes keeps exactly the rows no id targets. */
  lemma KeptExactly(rows: seq<Row>, column: string, ids: seq<Option<string>>)
    ensures forall r :: r in Kept(rows, column, ids) ==>
              r in rows && forall j :: 0 <= j < |ids| ==> !Targets(ids[j], r, column)
    ensures forall r :: r in rows && (forall j :: 0 <= j < |ids| ==> !Targets(ids[j], r, column)) ==>
              r in Kept(rows, column, ids)
  {
    KeptOnlyUntargeted(rows, column, ids);
    KeptAllUntargeted(rows, column, ids);
  }

  /** Every surviving row was stored, and no delete id targets it. */
  lemma {:induction false} KeptOnlyUntargeted(rows: seq<Row>, column: string, ids: seq<Option<string>>)
    ensures forall r :: r in Kept(rows, column, ids) ==>
              r in rows && forall j :: 0 <= j < |ids| ==> !Targets(ids[j], r, column)
    decreases |ids|
  {
    if ids != [] {
      var init := ids[..|ids| - 1];
      KeptOnlyUntargeted(rows, column, init);
      var before := Kept(rows, column, init);
      forall r | r in Kept(rows, column, ids)
        ensures r in rows && forall j :: 0 <= j < |ids| ==> !Targets(ids[j], r, column)
      {
        var last := ids[|ids| - 1];
        assert r in Without(before, column, last);
        assert r in before && !Targets(last, r, column);
        forall j | 0 <= j < |ids| ensures !Targets(ids[j], r, column) {
          if j < |init| { assert init[j] == ids[j]; } else { assert ids[j] == last; }
        }
      }
    }
  }

  /** Every stored row that no delete id targets survives. */
  lemma {:induction false} KeptAllUntargeted(rows: seq<Row>, column: string, ids: seq<Option<string>>)
    ensures forall r :: r in rows && (forall j :: 0 <= j < |ids| ==> !Targets(ids[j], r, column)) ==>
              r in Kept(rows, column, ids)
    decreases |ids|
  {
    if ids != [] {
      var init := ids[..|ids| - 1];
      KeptAllUntargeted(rows, column, init);
      var before := Kept(rows, column, init);
      forall r | r in rows && (forall j :: 0 <= j < |ids| ==> !Targets(ids[j], r, column))
        ensures r in Kept(rows, column, ids)
      {
        assert forall j :: 0 <= j < |init| ==> init[j] == ids[j];
        assert r in before;
        var i :| 0 <= i < |before| && before[i] == r;
        assert !Targets(ids[|ids| - 1], r, column);
      }
    }
  }

  /** A delete that targets no unmarked row leaves the unmarked rows exactly as they were. */
  lemma {:induction false} UnmarkedWithout(rows: seq<Row>, column: string, id: Option<string>)
    requires forall r :: r in rows && !r.demoData ==> !Targets(id, r, column)
    ensures Unmarked(Without(rows, column, id)) == Unmarked(rows)
    decreases |rows|
  {
    if rows != [] {
      assert forall r :: r in rows[1..] ==> r in rows;
      UnmarkedWithout(rows[1..], column, id);
    }
  }

  /** Deletes that target no unmarked row leave the unmarked rows, in order, untouched. */
  lemma {:induction false} KeptSparesUnmarked(rows: seq<Row>, column: string, ids: seq<Option<string>>)
    requires forall j, r :: 0 <= j < |ids| && r in rows && !r.demoData ==> !Targets(ids[j], r, column)
    ensures Unmarked(Kept(rows, column, ids)) == Unmarked(rows)
    decreases |ids|
  {
    if ids != [] {
      var init := ids[..|ids| - 1];
      assert forall j :: 0 <= j < |init| ==> init[j] == ids[j];
      KeptSparesUnmarked(rows, column, init);
      KeptExactly(rows, column, init);
      UnmarkedWithout(Kept(rows, column, init), column, ids[|ids| - 1]);
    }
  }

  /**
   * Under a unique constraint on `column`, an id selected from a marked row
   * targets no unmarked row.
   */
  lemma SelectedSparesUnmarked(rows: seq<Row>, column: string, id: Option<string>, r: Row)
    requires UniqueOn(rows, column)
    requires id in SelectMarked(rows, column)
    requires r in rows && !r.demoData
    ensures !Targets(id, r, column)
  {
    var ids := SelectMarked(rows, column);
    var j :| 0 <= j < |ids| && ids[j] == id;
    var i :| 0 <= i < |rows| && rows[i].demoData && id == KeyOf(rows[i], column);
    var k :| 0 <= k < |rows| && rows[k] == r;
    assert i != k;
    if i < k { assert !SameKey(rows[i], rows[k], column); }
    else { assert !SameKey(rows[k], rows[i], column); }
  }

  /**
   * Clear safety: deleting by ids taken from the select of marked rows removes
   * no unmarked row, provided `column` is unique in the collection.
   */
  lemma ClearSparesUnmarked(rows: seq<Row>, column: string, ids: seq<Option<string>>)
    requires UniqueOn(rows, column)
    requires forall j :: 0 <= j < |ids| ==> ids[j] in SelectMarked(rows, column)
    ensures Unmarked(Kept(rows, column, ids)) == Unmarked(rows)
  {
    forall j, r | 0 <= j < |ids| && r in rows && !r.demoData ensures !Targets(ids[j], r, column) {
      SelectedSparesUnmarked(rows, column, ids[j], r);
    }
    KeptSparesUnmarked(rows, column, ids);
  }

  /** Deleting by every selected id leaves no marked row that carries `column`. */
  lemma ClearAllRemovesMarked(rows: seq<Row>, column: string)
    ensures forall r :: r in Kept(rows, column, SelectMarked(rows, column)) && r.demoData ==>
              KeyOf(r, column).None?
  {
    var ids := SelectMarked(rows, column);
    KeptExactly(rows, column, ids);
    forall r | r in Kept(rows, column, ids) && r.demoData ensures KeyOf(r, column).None? {
      var i :| 0 <= i < |rows| && rows[i] == r;
      var j :| 0 <= j < |ids| && ids[j] == KeyOf(r, column);
      assert !Targets(ids[j], r, column);
    }
  }
}
