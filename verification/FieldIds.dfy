/** The ids of static fields: looked up in `dynamic_field`, inserted when missing. */
module FieldIds {
  import opened Wrappers

  datatype FieldRow = FieldRow(id: nat, classId: nat, code: string)

  /** The table with the next value of its id sequence. */
  datatype FieldTable = FieldTable(rows: seq<FieldRow>, next: nat) {

    /** The id a class and a code are stored under. */
    function Find(classId: nat, code: string): (id: Option<nat>)
      ensures id.Some? ==> FieldRow(id.value, classId, code) in rows
      ensures id.None? <==> forall r | r in rows :: !(r.classId == classId && r.code == code)
    {
      FindIn(rows, classId, code)
    }

    /** Ids come from the sequence, and neither an id nor a class and code occurs twice. */
    predicate Keyed() {
      && (forall r | r in rows :: r.id < next)
      && forall r, q | r in rows && q in rows && (r.id == q.id || (r.classId == q.classId && r.code == q.code)) ::
           r == q
    }
  }

  function FindIn(rows: seq<FieldRow>, classId: nat, code: string): (id: Option<nat>)
    ensures id.Some? ==> FieldRow(id.value, classId, code) in rows
    ensures id.None? <==> forall r | r in rows :: !(r.classId == classId && r.code == code)
  {
    if rows == [] then None
    else if rows[0].classId == classId && rows[0].code == code then Some(rows[0].id)
    else
      assert rows == [rows[0]] + rows[1..];
      FindIn(rows[1..], classId, code)
  }

  class DynamicFields {
    var table: FieldTable

    /** The part of `build` that gives a static field its id. */
    method IdOf(classId: nat, code: string) returns (id: nat)
      modifies this
      ensures (table, id) == AfterAsking(old(table), classId, code)
    {
      var found := table.Find(classId, code);
      if found.None? {
        id := table.next;
        table := FieldTable(table.rows + [FieldRow(id, classId, code)], id + 1);
      } else {
        id := found.value;
      }
    }
  }

  function AfterAsking(t: FieldTable, classId: nat, code: string): (FieldTable, nat) {
    var found := t.Find(classId, code);
    if found.Some? then (t, found.value)
    else (FieldTable(t.rows + [FieldRow(t.next, classId, code)], t.next + 1), t.next)
  }

  datatype Ask = Ask(classId: nat, code: string)

  function AfterAll(t: FieldTable, asks: seq<Ask>): FieldTable {
    if asks == [] then t
    else
      var ask := asks[|asks| - 1];
      AfterAsking(AfterAll(t, asks[..|asks| - 1]), ask.classId, ask.code).0
  }

  function Answer(t: FieldTable, asks: seq<Ask>, k: nat): nat
    requires k < |asks|
  {
    AfterAsking(AfterAll(t, asks[..k]), asks[k].classId, asks[k].code).1
  }

  lemma AskKeeps(t: FieldTable, classId: nat, code: string)
    requires t.Keyed()
    ensures var (after, id) := AfterAsking(t, classId, code);
            && after.Keyed() && t.rows <= after.rows
            && FieldRow(id, classId, code) in after.rows
            && forall r | r in after.rows && r !in t.rows :: r == FieldRow(id, classId, code)
  {}

  lemma {:induction false} RunKeeps(t: FieldTable, asks: seq<Ask>, k: nat)
    requires t.Keyed() && k <= |asks|
    ensures AfterAll(t, asks).Keyed() && AfterAll(t, asks[..k]).rows <= AfterAll(t, asks).rows
    decreases |asks|
  {
    if asks == [] {
    } else if k == |asks| {
      RunKeeps(t, asks[..|asks| - 1], 0);
      AskKeeps(AfterAll(t, asks[..|asks| - 1]), asks[|asks| - 1].classId, asks[|asks| - 1].code);
      assert asks[..k] == asks;
    } else {
      var front := asks[..|asks| - 1];
      RunKeeps(t, front, k);
      assert front[..k] == asks[..k];
      AskKeeps(AfterAll(t, front), asks[|asks| - 1].classId, asks[|asks| - 1].code);
    }
  }

  lemma AnswerStays(t: FieldTable, asks: seq<Ask>, k: nat)
    requires t.Keyed() && k < |asks|
    ensures AfterAll(t, asks).Keyed()
    ensures FieldRow(Answer(t, asks, k), asks[k].classId, asks[k].code) in AfterAll(t, asks).rows
  {
    RunKeeps(t, asks[..k], 0);
    AskKeeps(AfterAll(t, asks[..k]), asks[k].classId, asks[k].code);
    assert asks[..k + 1][..k] == asks[..k];
    RunKeeps(t, asks, k + 1);
  }

  /**
   * Over any run, however often the loaders are asked, two answers are the same id exactly when they
   * are for the same class and code: a field keeps its id from pass to pass and from start to start.
   */
  lemma SameIdIff(t: FieldTable, asks: seq<Ask>, j: nat, k: nat)
    requires t.Keyed() && j < |asks| && k < |asks|
    ensures Answer(t, asks, j) == Answer(t, asks, k) <==> asks[j] == asks[k]
  {
    AnswerStays(t, asks, j);
    AnswerStays(t, asks, k);
  }

  /** Fields that have their rows already are looked up and nothing is inserted: a second pass adds no row. */
  lemma {:induction false} SecondPassInsertsNothing(t: FieldTable, asks: seq<Ask>, again: seq<Ask>)
    requires t.Keyed() && forall a | a in again :: a in asks
    ensures AfterAll(AfterAll(t, asks), again) == AfterAll(t, asks)
  {
    if again != [] {
      var ask := again[|again| - 1];
      SecondPassInsertsNothing(t, asks, again[..|again| - 1]);
      assert ask in again;
      var k :| 0 <= k < |asks| && asks[k] == ask;
      AnswerStays(t, asks, k);
    }
  }
}
