/** The taxonomy migration script (scripts/terms.js): it adds an ENUM
  * column `taxonomy` to the `terms` table when the column is missing, and
  * then copies each WordPress term's taxonomy onto the term with the same
  * id, normalised to the three values the column allows, counting the
  * updates that hit a row and the ones that threw.
  *
  * The target table is an object: the set of term ids, whether the column
  * exists, and the column's value for each id. Which database calls throw is
  * a parameter. The connection pool and the console output are not part of
  * this model.
  */
module MigrateTerms {
  import opened JsText

  const CATEGORY: JsString := Lit("category")
  const POST_TAG: JsString := Lit("post_tag")
  const OTHER: JsString := Lit("other")

  /** The three values of `ENUM('category', 'post_tag', 'other')`. */
  predicate IsEnumValue(t: JsString) {
    t == CATEGORY || t == POST_TAG || t == OTHER
  }

  lemma EnumValuesDistinct()
    ensures CATEGORY != POST_TAG && CATEGORY != OTHER && POST_TAG != OTHER
  {
    assert CATEGORY[0] != POST_TAG[0];
    assert |CATEGORY| != |OTHER| && |POST_TAG| != |OTHER|;
  }

  /** The value written for a WordPress taxonomy: `category` and `post_tag`
    * are kept, any other taxonomy is stored as `other`. */
  function NormalizeTaxonomy(t: JsString): (r: JsString)
    ensures IsEnumValue(r)
    ensures IsEnumValue(t) ==> r == t
    ensures t != CATEGORY && t != POST_TAG ==> r == OTHER
  {
    if t == CATEGORY || t == POST_TAG then t else OTHER
  }

  /** Normalising twice is normalising once. */
  lemma NormalizeIdempotent(t: JsString)
    ensures NormalizeTaxonomy(NormalizeTaxonomy(t)) == NormalizeTaxonomy(t)
  {
  }

  /** A row of `SELECT term_id, taxonomy FROM taxonomy`. */
  datatype SourceRow = SourceRow(termId: int, taxonomy: JsString)

  /** What one `UPDATE terms SET taxonomy = ? WHERE id = ?` did: changed the
    * row with that id (`affectedRows` is 1, counting the matched row as the
    * driver reports it), found none (`affectedRows` is 0), or threw. */
  datatype Step = Updated | NoMatch | Threw

  /** The outcome of the update for `row`, on a table with the ids `ids`.
    * Without the column the statement is refused as an unknown column. */
  function StepOf(ids: set<int>, hasColumn: bool, row: SourceRow, failed: bool): Step {
    if failed || !hasColumn then Threw
    else if row.termId in ids then Updated
    else NoMatch
  }

  /** The outcomes of the whole loop, the i-th update failing when `fails(i)`. */
  function Steps(ids: set<int>, hasColumn: bool, rows: seq<SourceRow>, fails: nat -> bool): (r: seq<Step>)
    ensures |r| == |rows|
    ensures forall i :: 0 <= i < |rows| ==> r[i] == StepOf(ids, hasColumn, rows[i], fails(i))
  {
    seq(|rows|, i requires 0 <= i < |rows| => StepOf(ids, hasColumn, rows[i], fails(i)))
  }

  /** The number of outcomes equal to `k`. */
  function Count(steps: seq<Step>, k: Step): (r: nat)
    ensures r <= |steps|
  {
    if steps == [] then 0
    else Count(steps[..|steps| - 1], k) + (if steps[|steps| - 1] == k then 1 else 0)
  }

  /** Every update is counted once: as a success, as a miss or as an error. */
  lemma {:induction false} CountPartition(steps: seq<Step>)
    ensures Count(steps, Updated) + Count(steps, NoMatch) + Count(steps, Threw) == |steps|
  {
    if steps != [] {
      CountPartition(steps[..|steps| - 1]);
    }
  }

  /** The column after the updates of `rows`, in order: each update that
    * neither threw nor missed writes the normalised taxonomy. */
  function Transfer(column: map<int, JsString>, ids: set<int>, hasColumn: bool,
                    rows: seq<SourceRow>, fails: nat -> bool): map<int, JsString>
  {
    if rows == [] then column
    else
      var n := |rows| - 1;
      var before := Transfer(column, ids, hasColumn, rows[..n], fails);
      if StepOf(ids, hasColumn, rows[n], fails(n)) == Updated
      then before[rows[n].termId := NormalizeTaxonomy(rows[n].taxonomy)]
      else before
  }

  /** One more row is one more step of the loop. */
  lemma TransferStep(column: map<int, JsString>, ids: set<int>, hasColumn: bool,
                     rows: seq<SourceRow>, fails: nat -> bool, i: nat)
    requires i < |rows|
    ensures var before := Transfer(column, ids, hasColumn, rows[..i], fails);
      Transfer(column, ids, hasColumn, rows[..i + 1], fails) ==
        if StepOf(ids, hasColumn, rows[i], fails(i)) == Updated
        then before[rows[i].termId := NormalizeTaxonomy(rows[i].taxonomy)]
        else before
  {
    assert rows[..i + 1][..i] == rows[..i];
  }

  lemma CountStep(steps: seq<Step>, i: nat, k: Step)
    requires i < |steps|
    ensures Count(steps[..i + 1], k) == Count(steps[..i], k) + (if steps[i] == k then 1 else 0)
  {
    assert steps[..i + 1][..i] == steps[..i];
  }

  /** The updates keep the set of rows and leave only ENUM values behind. */
  lemma {:induction false} TransferKeepsEnum(column: map<int, JsString>, ids: set<int>, hasColumn: bool,
                                             rows: seq<SourceRow>, fails: nat -> bool)
    requires column.Keys == ids && forall id :: id in column ==> IsEnumValue(column[id])
    ensures var after := Transfer(column, ids, hasColumn, rows, fails);
      after.Keys == ids && forall id :: id in after ==> IsEnumValue(after[id])
  {
    if rows != [] {
      TransferKeepsEnum(column, ids, hasColumn, rows[..|rows| - 1], fails);
    }
  }

  /** Whether the i-th update writes the row `id`. */
  predicate Writes(ids: set<int>, hasColumn: bool, rows: seq<SourceRow>, fails: nat -> bool, i: int, id: int)
    requires 0 <= i < |rows|
  {
    rows[i].termId == id && StepOf(ids, hasColumn, rows[i], fails(i)) == Updated
  }

  /** A row no update writes keeps its old value. */
  lemma {:induction false} TransferUntouched(column: map<int, JsString>, ids: set<int>, hasColumn: bool,
                                             rows: seq<SourceRow>, fails: nat -> bool, id: int)
    requires id in column
    requires forall i :: 0 <= i < |rows| ==> !Writes(ids, hasColumn, rows, fails, i, id)
    ensures var after := Transfer(column, ids, hasColumn, rows, fails);
      id in after && after[id] == column[id]
  {
    if rows != [] {
      var n := |rows| - 1;
      assert forall i :: 0 <= i < n ==>
        Writes(ids, hasColumn, rows[..n], fails, i, id) == Writes(ids, hasColumn, rows, fails, i, id);
      assert !Writes(ids, hasColumn, rows, fails, n, id);
      TransferUntouched(column, ids, hasColumn, rows[..n], fails, id);
    }
  }

  /** The last update that writes a row decides its value. */
  lemma {:induction false} TransferLastWriteWins(column: map<int, JsString>, ids: set<int>, hasColumn: bool,
                                                 rows: seq<SourceRow>, fails: nat -> bool, id: int, j: int)
    requires 0 <= j < |rows| && Writes(ids, hasColumn, rows, fails, j, id)
    requires forall i :: j < i < |rows| ==> !Writes(ids, hasColumn, rows, fails, i, id)
    ensures var after := Transfer(column, ids, hasColumn, rows, fails);
      id in after && after[id] == NormalizeTaxonomy(rows[j].taxonomy)
  {
    var n := |rows| - 1;
    if j < n {
      assert forall i :: 0 <= i < n ==>
        Writes(ids, hasColumn, rows[..n], fails, i, id) == Writes(ids, hasColumn, rows, fails, i, id);
      assert !Writes(ids, hasColumn, rows, fails, n, id);
      TransferLastWriteWins(column, ids, hasColumn, rows[..n], fails, id, j);
    }
  }

  /** The `terms` table as far as the script touches it. */
  class TermsTable {
    var ids: set<int>
    var hasTaxonomyColumn: bool
    var taxonomy: map<int, JsString>

    /** The column, when present, has a value for every row and only ENUM values. */
    predicate Valid()
      reads this
    {
      && (hasTaxonomyColumn ==> taxonomy.Keys == ids && forall id :: id in taxonomy ==> IsEnumValue(taxonomy[id]))
      && (!hasTaxonomyColumn ==> taxonomy == map[])
    }

    constructor (ids0: set<int>, column: Option<map<int, JsString>>)
      requires column.Some? ==> column.value.Keys == ids0
      requires column.Some? ==> forall id :: id in column.value ==> IsEnumValue(column.value[id])
      ensures Valid()
      ensures ids == ids0 && hasTaxonomyColumn == column.Some?
      ensures taxonomy == if column.Some? then column.value else map[]
    {
      ids := ids0;
      hasTaxonomyColumn := column.Some?;
      taxonomy := if column.Some? then column.value else map[];
    }

    /** `addTaxonomyColumn(db)`: nothing changes when the column exists;
      * otherwise the ALTER adds it with every row at the default `other`.
      * A failing statement (`fails`) is rethrown: `ok` is false and the
      * table is as it was. */
    method AddTaxonomyColumn(fails: bool) returns (ok: bool)
      requires Valid()
      modifies this
      ensures Valid() && ids == old(ids)
      ensures ok <==> old(hasTaxonomyColumn) || !fails
      ensures old(hasTaxonomyColumn) || !ok ==>
        hasTaxonomyColumn == old(hasTaxonomyColumn) && taxonomy == old(taxonomy)
      ensures !old(hasTaxonomyColumn) && ok ==>
        hasTaxonomyColumn && forall id :: id in ids ==> taxonomy[id] == OTHER
    {
      if hasTaxonomyColumn {
        return true;
      }
      if fails {
        return false;
      }
      hasTaxonomyColumn := true;
      taxonomy := map id | id in ids :: OTHER;
      ok := true;
    }

    /** `transferTaxonomies(db)` for the source rows `rows`: an empty source
      * returns at once; otherwise one update per row, in order. */
    method TransferTaxonomies(rows: seq<SourceRow>, fails: nat -> bool)
      returns (successCount: nat, errorCount: nat)
      requires Valid()
      modifies this
      ensures Valid() && ids == old(ids) && hasTaxonomyColumn == old(hasTaxonomyColumn)
      ensures rows == [] ==> taxonomy == old(taxonomy) && successCount == 0 && errorCount == 0
      ensures taxonomy == Transfer(old(taxonomy), ids, hasTaxonomyColumn, rows, fails)
      ensures var steps := Steps(ids, hasTaxonomyColumn, rows, fails);
        successCount == Count(steps, Updated) && errorCount == Count(steps, Threw)
      ensures successCount + errorCount <= |rows|
    {
      successCount, errorCount := 0, 0;
      if |rows| == 0 {
        return;
      }
      ghost var steps := Steps(ids, hasTaxonomyColumn, rows, fails);
      ghost var start := taxonomy;
      for i := 0 to |rows|
        invariant ids == old(ids) && hasTaxonomyColumn == old(hasTaxonomyColumn)
        invariant taxonomy == Transfer(start, ids, hasTaxonomyColumn, rows[..i], fails)
        invariant successCount == Count(steps[..i], Updated) && errorCount == Count(steps[..i], Threw)
        invariant successCount + errorCount <= i
        invariant !hasTaxonomyColumn ==> taxonomy == start
      {
        TransferStep(start, ids, hasTaxonomyColumn, rows, fails, i);
        CountStep(steps, i, Updated);
        CountStep(steps, i, Threw);
        var value := NormalizeTaxonomy(rows[i].taxonomy);
        if fails(i) || !hasTaxonomyColumn {
          errorCount := errorCount + 1;
        } else if rows[i].termId in ids {
          taxonomy := taxonomy[rows[i].termId := value];
          successCount := successCount + 1;
        }
      }
      assert rows[..|rows|] == rows && steps[..|rows|] == steps;
      if hasTaxonomyColumn {
        TransferKeepsEnum(start, ids, hasTaxonomyColumn, rows, fails);
      }
    }
  }

  /** `updateTermsTaxonomy()`: the column step, then, unless it threw, the
    * transfer. */
  method UpdateTermsTaxonomy(table: TermsTable, rows: seq<SourceRow>, alterFails: bool, fails: nat -> bool)
    returns (ok: bool)
    requires table.Valid()
    modifies table
    ensures table.Valid() && table.ids == old(table.ids)
    ensures ok <==> old(table.hasTaxonomyColumn) || !alterFails
    ensures !ok ==> table.taxonomy == old(table.taxonomy) && !table.hasTaxonomyColumn
    ensures ok ==> table.hasTaxonomyColumn && forall id :: id in table.ids ==> IsEnumValue(table.taxonomy[id])
  {
    ok := table.AddTaxonomyColumn(alterFails);
    if ok {
      var _, _ := table.TransferTaxonomies(rows, fails);
    }
  }
}
