/** What every run of the object store keeps: its link tables, and a search index equal to a rebuild. */
module ObjectStoreProofs {
  import opened Wrappers
  import opened Values
  import opened Meta
  import opened ObjectStore
  import opened ConvertToJooq

  // ---------------------------------------------------------------- one link table

  predicate UniqueLinkIds(links: seq<LinkRow>, next: int) {
    && (forall l | l in links :: l.id < next)
    && forall i, j | 0 <= i < j < |links| :: links[i].id != links[j].id
  }

  lemma {:induction false} DropFromMembers(links: seq<LinkRow>, id: int)
    ensures forall l :: l in DropFrom(links, id) <==> l in links && l.from != id
  {
    if links != [] {
      DropFromMembers(links[1..], id);
      assert links == [links[0]] + links[1..];
    }
  }

  lemma {:induction false} DropFromUnique(links: seq<LinkRow>, id: int, next: int)
    requires UniqueLinkIds(links, next)
    ensures UniqueLinkIds(DropFrom(links, id), next)
  {
    DropFromMembers(links, id);
    if links != [] {
      forall l | l in links[1..] ensures l.id != links[0].id {
        var i :| 0 <= i < |links[1..]| && links[1..][i] == l;
        assert links[i + 1] == l;
      }
      DropFromUnique(links[1..], id, next);
      DropFromMembers(links[1..], id);
    }
  }

  lemma {:induction false} ForwardDrop(links: seq<LinkRow>, id: int, other: int)
    ensures Forward(DropFrom(links, id), other) == if other == id then [] else Forward(links, other)
  {
    if links != [] {
      ForwardDrop(links[1..], id, other);
      assert links[0].from == id ==> DropFrom(links, id) == DropFrom(links[1..], id);
      assert links[0].from != id ==> DropFrom(links, id)[1..] == DropFrom(links[1..], id);
    }
  }

  lemma {:induction false} ForwardConcat(a: seq<LinkRow>, b: seq<LinkRow>, id: int)
    ensures Forward(a + b, id) == Forward(a, id) + Forward(b, id)
  {
    if a == [] {
      assert a + b == b;
    } else {
      ForwardConcat(a[1..], b, id);
      assert (a + b)[1..] == a[1..] + b;
    }
  }

  lemma {:induction false} ForwardNew(next: int, from: int, ids: seq<int>, id: int)
    ensures Forward(NewLinks(next, from, ids), id) == if id == from then ids else []
    decreases |ids|
  {
    if ids != [] {
      ForwardNew(next + 1, from, ids[1..], id);
      assert NewLinks(next, from, ids)[1..] == NewLinks(next + 1, from, ids[1..]);
    }
  }

  /** Writing a collection: it becomes the object's forward list, and no other object's list changes. */
  lemma TableForward(links: LinkTables, s: Sequences, id: int, table: string, ids: seq<int>, other: int)
    ensures Forward(TableAfter(links, s, id, table, ids), other) ==
            if other == id then ids else Forward(LinksOf(links, table), other)
  {
    var kept := DropFrom(LinksOf(links, table), id);
    ForwardConcat(kept, NewLinks(NextVal(s, table), id, ids), other);
    ForwardDrop(LinksOf(links, table), id, other);
    ForwardNew(NextVal(s, table), id, ids, other);
  }

  lemma TableUnique(links: LinkTables, s: Sequences, id: int, table: string, ids: seq<int>)
    requires UniqueLinkIds(LinksOf(links, table), NextVal(s, table))
    ensures UniqueLinkIds(TableAfter(links, s, id, table, ids), NextVal(s, table) + |ids|)
  {
    DropFromUnique(LinksOf(links, table), id, NextVal(s, table));
  }

  lemma TableMembers(links: LinkTables, s: Sequences, id: int, table: string, ids: seq<int>)
    ensures forall l | l in TableAfter(links, s, id, table, ids) :: l.from == id || l in LinksOf(links, table)
    ensures ids != [] ==> exists l | l in TableAfter(links, s, id, table, ids) :: l.from == id
    ensures ids == [] ==> forall l | l in TableAfter(links, s, id, table, ids) :: l.from != id
  {
    DropFromMembers(LinksOf(links, table), id);
    if ids != [] {
      assert NewLinks(NextVal(s, table), id, ids)[0] in TableAfter(links, s, id, table, ids);
    }
  }

  // ---------------------------------------------------------------- submitted values

  /** What the assignments hold for each field's column. */
  lemma {:induction false} ColumnsAt(fields: seq<Field>, values: map<string, Input>, withNulls: bool, f: Field)
    requires DistinctColumns(fields) && f in fields && f.column.Some?
    ensures f.column.value in Columns(fields, values, withNulls) <==> Assigns(f, values, withNulls)
    ensures Assigns(f, values, withNulls) ==> Columns(fields, values, withNulls)[f.column.value] == values[f.code].v
  {
    var last, front := fields[|fields| - 1], fields[..|fields| - 1];
    assert fields == front + [last];
    if f in front {
      ColumnsAt(front, values, withNulls, f);
    } else {
      ColumnsElsewhere(front, values, withNulls, f.column.value);
    }
  }

  lemma {:induction false} ColumnsElsewhere(fields: seq<Field>, values: map<string, Input>, withNulls: bool,
                                            column: string)
    requires forall g | g in fields :: g.column != Some(column)
    ensures column !in Columns(fields, values, withNulls)
  {
    if fields != [] {
      assert fields == fields[..|fields| - 1] + [fields[|fields| - 1]];
      ColumnsElsewhere(fields[..|fields| - 1], values, withNulls, column);
    }
  }

  /** Which tables a write rewrites, and with what. */
  lemma {:induction false} CollectionsAt(fields: seq<Field>, values: map<string, Input>, t: string)
    requires OwnTables(fields)
    ensures t in Collections(fields, values) <==> exists f | f in fields :: Rewrites(f, values) && f.nxmTable == t
    ensures forall f | f in fields && Rewrites(f, values) && f.nxmTable == t ::
            Collections(fields, values)[t] == values[f.code].ids
  {
    if fields != [] {
      assert fields == fields[..|fields| - 1] + [fields[|fields| - 1]];
      CollectionsAt(fields[..|fields| - 1], values, t);
    }
  }

  lemma {:induction false} FullDocAt(fields: seq<Field>, row: Row, f: Field)
    requires DistinctCodes(fields) && f in fields && f.column.Some?
    ensures f.code in FullDoc(fields, row) && FullDoc(fields, row)[f.code] == TextOf(Cell(row, f.column.value))
  {
    var last, front := fields[|fields| - 1], fields[..|fields| - 1];
    assert fields == front + [last];
    if f in front {
      FullDocAt(front, row, f);
    }
  }

  lemma {:induction false} FullDocCodes(fields: seq<Field>, row: Row, code: string)
    requires code in FullDoc(fields, row)
    ensures exists f | f in fields :: f.column.Some? && f.code == code
  {
    var last, front := fields[|fields| - 1], fields[..|fields| - 1];
    assert fields == front + [last];
    if last.column.None? || last.code != code {
      FullDocCodes(front, row, code);
    }
  }

  lemma CollectionsInClass(cls: ClassInfo, values: map<string, Input>)
    requires WellFormedClass(cls)
    ensures Collections(cls.fields, values).Keys <= LinkTablesIn(cls.fields)
  {
    forall t | t in Collections(cls.fields, values) ensures t in LinkTablesIn(cls.fields) {
      CollectionsAt(cls.fields, values, t);
    }
  }

  // ---------------------------------------------------------------- the store invariant

  predicate FromLive(rows: Rows, cls: string, links: seq<LinkRow>) {
    forall l | l in links :: Key(cls, l.from) in rows
  }

  predicate LinksLive(classes: Classes, rows: Rows, links: LinkTables) {
    forall c, t | c in classes && t in LinkTablesIn(classes[c].fields) :: FromLive(rows, c, LinksOf(links, t))
  }

  predicate LinkIdsUnique(links: LinkTables, s: Sequences) {
    forall t | t in links :: UniqueLinkIds(links[t], NextVal(s, t))
  }

  predicate IdsDrawn(classes: Classes, rows: Rows, s: Sequences) {
    && (forall c | c in s :: 1 <= s[c])
    && forall key | key in rows :: key.cls in classes && 1 <= key.id < NextVal(s, key.cls)
  }

  /** Link ids are unique, every link starts at a live object, every id came from its class's sequence. */
  predicate Invariant(classes: Classes, st: Store) {
    && IdsDrawn(classes, st.rows, st.idSequences)
    && LinkIdsUnique(st.links, st.linkSequences)
    && LinksLive(classes, st.rows, st.links)
  }

  lemma LinksAfterUnique(links: LinkTables, s: Sequences, id: int, written: map<string, seq<int>>)
    requires LinkIdsUnique(links, s)
    ensures LinkIdsUnique(LinksAfter(links, s, id, written), SequencesAfter(s, written))
  {
    var after := LinksAfter(links, s, id, written);
    forall t | t in after ensures UniqueLinkIds(after[t], NextVal(SequencesAfter(s, written), t)) {
      if t in written {
        TableUnique(links, s, id, t, written[t]);
      } else {
        assert after[t] == links[t] && NextVal(SequencesAfter(s, written), t) == NextVal(s, t);
      }
    }
  }

  /** Rewriting an object's links leaves every link at a live object when the object itself is live. */
  lemma LinksAfterLive(classes: Classes, rows: Rows, rows': Rows, links: LinkTables, s: Sequences,
                       key: Key, written: map<string, seq<int>>)
    requires WellFormed(classes) && key.cls in classes && written.Keys <= LinkTablesIn(classes[key.cls].fields)
    requires LinksLive(classes, rows, links) && rows.Keys <= rows'.Keys
    requires key in rows' || forall t | t in written :: written[t] == []
    ensures LinksLive(classes, rows', LinksAfter(links, s, key.id, written))
  {
    var after := LinksAfter(links, s, key.id, written);
    forall c, t | c in classes && t in LinkTablesIn(classes[c].fields)
      ensures FromLive(rows', c, LinksOf(after, t))
    {
      assert FromLive(rows, c, LinksOf(links, t));
      if t in written {
        assert c == key.cls by {
          assert t in LinkTablesIn(classes[key.cls].fields);
        }
        TableMembers(links, s, key.id, t, written[t]);
      } else {
        assert LinksOf(after, t) == LinksOf(links, t);
      }
    }
  }

  /** A change of links that stays within the class, for a live object or without links. */
  lemma LinksAfterSound(classes: Classes, st: Store, rows': Rows, key: Key, values: map<string, Input>)
    requires WellFormed(classes) && Invariant(classes, st) && key.cls in classes && st.rows.Keys <= rows'.Keys
    requires var collections := Collections(classes[key.cls].fields, values);
             key in rows' || forall t | t in collections :: collections[t] == []
    ensures var collections := Collections(classes[key.cls].fields, values);
            var links' := LinksAfter(st.links, st.linkSequences, key.id, collections);
            LinkIdsUnique(links', SequencesAfter(st.linkSequences, collections)) && LinksLive(classes, rows', links')
  {
    var collections := Collections(classes[key.cls].fields, values);
    CollectionsInClass(classes[key.cls], values);
    LinksAfterUnique(st.links, st.linkSequences, key.id, collections);
    LinksAfterLive(classes, st.rows, rows', st.links, st.linkSequences, key, collections);
  }

  lemma DrawnIdKeeps(classes: Classes, st: Store, code: string)
    requires Invariant(classes, st)
    ensures Invariant(classes, DrawnId(st, code))
  {}

  lemma CreatedIdsDrawn(classes: Classes, st: Store, code: string, columns: Row)
    requires IdsDrawn(classes, st.rows, st.idSequences) && code in classes
    ensures var id := NextVal(st.idSequences, code);
            IdsDrawn(classes, st.rows[Key(code, id) := columns], st.idSequences[code := id + 1])
  {}

  lemma CreatedSound(classes: Classes, st: Store, code: string, change: Change, values: map<string, Input>)
    requires WellFormed(classes) && Invariant(classes, st) && code in classes
    requires change.links == Collections(classes[code].fields, values)
    ensures Invariant(classes, Created(st, code, change, values))
  {
    var key := Key(code, NextVal(st.idSequences, code));
    CreatedIdsDrawn(classes, st, code, change.columns);
    LinksAfterSound(classes, st, st.rows[key := change.columns], key, values);
  }

  lemma CreateKeepsInvariant(classes: Classes, st: Store, code: string, values: map<string, Input>, last: string)
    requires WellFormed(classes) && Invariant(classes, st)
    ensures Invariant(classes, CreateSpec(classes, st, code, values, last).0)
  {
    match Prepared(classes, code, values, false)
    case Ok(change) => CreatedSound(classes, st, code, change, values);
    case Err(_) => DrawnIdKeeps(classes, st, code);
  }

  /** An update keeps the invariant exactly when the object is live or no non-empty collection is written. */
  lemma UpdateKeepsInvariantIff(classes: Classes, st: Store, code: string, id: string, values: map<string, Input>)
    requires WellFormed(classes) && Invariant(classes, st)
    ensures Invariant(classes, UpdateSpec(classes, st, code, id, values).0) <==>
            var prepared := PreparedUpdate(classes, code, id, values);
            prepared.Ok? && Key(code, prepared.value.0) !in st.rows ==>
              forall t | t in prepared.value.1.links :: prepared.value.1.links[t] == []
  {
    var prepared := PreparedUpdate(classes, code, id, values);
    if prepared.Ok? {
      UpdatedSoundIff(classes, st, Key(code, prepared.value.0), id, prepared.value.1, values);
    }
  }

  lemma UpdatedSoundIff(classes: Classes, st: Store, key: Key, id: string, change: Change, values: map<string, Input>)
    requires WellFormed(classes) && Invariant(classes, st) && key.cls in classes
    requires change.links == Collections(classes[key.cls].fields, values)
    ensures Invariant(classes, Updated(st, key, id, change, values)) <==>
            key in st.rows || forall t | t in change.links :: change.links[t] == []
  {
    if key in st.rows || forall t | t in change.links :: change.links[t] == [] {
      UpdatedSound(classes, st, key, id, change, values);
    } else {
      UpdatedUnsound(classes, st, key, id, change, values);
    }
  }

  lemma UpdatedSound(classes: Classes, st: Store, key: Key, id: string, change: Change, values: map<string, Input>)
    requires WellFormed(classes) && Invariant(classes, st) && key.cls in classes
    requires change.links == Collections(classes[key.cls].fields, values)
    requires key in st.rows || forall t | t in change.links :: change.links[t] == []
    ensures Invariant(classes, Updated(st, key, id, change, values))
  {
    LinksAfterSound(classes, st, Updated(st, key, id, change, values).rows, key, values);
  }

  lemma UpdatedUnsound(classes: Classes, st: Store, key: Key, id: string, change: Change, values: map<string, Input>)
    requires WellFormed(classes) && key.cls in classes && key !in st.rows
    requires change.links == Collections(classes[key.cls].fields, values)
    requires exists t | t in change.links :: change.links[t] != []
    ensures !Invariant(classes, Updated(st, key, id, change, values))
  {
    CollectionsInClass(classes[key.cls], values);
    var t :| t in change.links && change.links[t] != [];
    LinkFromNowhere(st, key, id, change, values, t);
    assert t in LinkTablesIn(classes[key.cls].fields);
  }

  lemma LinkFromNowhere(st: Store, key: Key, id: string, change: Change, values: map<string, Input>, t: string)
    requires key !in st.rows && t in change.links && change.links[t] != []
    ensures var st' := Updated(st, key, id, change, values); !FromLive(st'.rows, key.cls, LinksOf(st'.links, t))
  {
    TableMembers(st.links, st.linkSequences, key.id, t, change.links[t]);
    assert LinksOf(Updated(st, key, id, change, values).links, t) ==
           TableAfter(st.links, st.linkSequences, key.id, t, change.links[t]);
  }

  lemma LinksWithoutUnique(links: LinkTables, s: Sequences, id: int, tables: set<string>)
    requires LinkIdsUnique(links, s)
    ensures LinkIdsUnique(LinksWithout(links, id, tables), s)
  {
    forall t | t in links ensures UniqueLinkIds(DropFrom(links[t], id), NextVal(s, t)) {
      DropFromUnique(links[t], id, NextVal(s, t));
    }
  }

  lemma LinksWithoutLive(classes: Classes, rows: Rows, links: LinkTables, key: Key)
    requires WellFormed(classes) && key.cls in classes && LinksLive(classes, rows, links)
    ensures LinksLive(classes, rows - {key}, LinksWithout(links, key.id, LinkTablesIn(classes[key.cls].fields)))
  {
    var tables := LinkTablesIn(classes[key.cls].fields);
    forall c, t | c in classes && t in LinkTablesIn(classes[c].fields)
      ensures FromLive(rows - {key}, c, LinksOf(LinksWithout(links, key.id, tables), t))
    {
      assert FromLive(rows, c, LinksOf(links, t));
      DropFromMembers(LinksOf(links, t), key.id);
      if c != key.cls {
        assert t !in tables;
      }
    }
  }

  lemma DeleteKeepsInvariant(classes: Classes, st: Store, code: string, id: string)
    requires WellFormed(classes) && Invariant(classes, st)
    ensures Invariant(classes, DeleteSpec(classes, st, code, id).0)
  {
    var prepared := PreparedDelete(classes, code, id);
    if prepared.Ok? {
      LinksWithoutUnique(st.links, st.linkSequences, prepared.value, LinkTablesIn(classes[code].fields));
      LinksWithoutLive(classes, st.rows, st.links, Key(code, prepared.value));
    }
  }

  // ---------------------------------------------------------------- what an update does to the links

  lemma LinksAfterForward(links: LinkTables, s: Sequences, id: int, written: map<string, seq<int>>, t: string,
                          other: int)
    ensures Forward(LinksOf(LinksAfter(links, s, id, written), t), other) ==
            if t in written && other == id then written[t] else Forward(LinksOf(links, t), other)
  {
    var after := LinksAfter(links, s, id, written);
    if t in written {
      TableForward(links, s, id, t, written[t], other);
      assert LinksOf(after, t) == TableAfter(links, s, id, t, written[t]);
    } else {
      assert LinksOf(after, t) == LinksOf(links, t);
    }
  }

  lemma SequencesAfterNext(s: Sequences, written: map<string, seq<int>>, t: string)
    ensures NextVal(SequencesAfter(s, written), t) == NextVal(s, t) + if t in written then |written[t]| else 0
  {}

  /** The table of a field is rewritten exactly when the write is to its class and carries its collection. */
  lemma RewrittenTable(classes: Classes, code: string, values: map<string, Input>, c: string, f: Field)
    requires WellFormed(classes) && code in classes
    requires c in classes && f in classes[c].fields && f.kind.MultiLink?
    ensures var collections := Collections(classes[code].fields, values);
            && (f.nxmTable in collections <==> c == code && f.code in values && values[f.code].Ids?)
            && (f.nxmTable in collections ==> collections[f.nxmTable] == values[f.code].ids)
  {
    CollectionsInClass(classes[code], values);
    CollectionsAt(classes[code].fields, values, f.nxmTable);
    assert f.nxmTable in LinkTablesIn(classes[c].fields);
    assert WellFormedClass(classes[c]);
    if c != code {
      assert f.nxmTable !in LinkTablesIn(classes[code].fields);
    }
  }

  /**
   * An accepted update makes each submitted collection the forward list of its field for the object the
   * id reads as, and changes neither another object's list nor the table of any other field of any class;
   * one link id is drawn for each element.
   */
  lemma UpdateLinks(classes: Classes, st: Store, code: string, id: string, values: map<string, Input>,
                    c: string, f: Field, other: int)
    requires WellFormed(classes) && PreparedUpdate(classes, code, id, values).Ok?
    requires c in classes && f in classes[c].fields && f.kind.MultiLink?
    ensures Forward(LinksOf(UpdateSpec(classes, st, code, id, values).0.links, f.nxmTable), other) ==
            if c == code && ParseNum(LongKind, id) == Ok(other) && f.code in values && values[f.code].Ids?
            then values[f.code].ids
            else Forward(LinksOf(st.links, f.nxmTable), other)
    ensures NextVal(UpdateSpec(classes, st, code, id, values).0.linkSequences, f.nxmTable) ==
            NextVal(st.linkSequences, f.nxmTable)
            + if c == code && f.code in values && values[f.code].Ids? then |values[f.code].ids| else 0
  {
    var collections := Collections(classes[code].fields, values);
    var n := PreparedUpdate(classes, code, id, values).value.0;
    RewrittenTable(classes, code, values, c, f);
    LinksAfterForward(st.links, st.linkSequences, n, collections, f.nxmTable, other);
    SequencesAfterNext(st.linkSequences, collections, f.nxmTable);
  }

  /** The same of a create, for the object it makes. */
  lemma CreateLinks(classes: Classes, st: Store, code: string, values: map<string, Input>, last: string,
                    c: string, f: Field, other: int)
    requires WellFormed(classes) && CreateSpec(classes, st, code, values, last).1.Ok?
    requires c in classes && f in classes[c].fields && f.kind.MultiLink?
    ensures var (st', r) := CreateSpec(classes, st, code, values, last);
            Forward(LinksOf(st'.links, f.nxmTable), other) ==
            if c == code && r == Ok(ShowInt(other)) && f.code in values && values[f.code].Ids?
            then values[f.code].ids
            else Forward(LinksOf(st.links, f.nxmTable), other)
    ensures NextVal(CreateSpec(classes, st, code, values, last).0.linkSequences, f.nxmTable) ==
            NextVal(st.linkSequences, f.nxmTable)
            + if c == code && f.code in values && values[f.code].Ids? then |values[f.code].ids| else 0
  {
    var collections := Collections(classes[code].fields, values);
    var n := NextVal(st.idSequences, code);
    if ShowInt(other) == ShowInt(n) {
      ShowIntInjective(other, n);
    }
    RewrittenTable(classes, code, values, c, f);
    LinksAfterForward(st.links, st.linkSequences, n, collections, f.nxmTable, other);
    SequencesAfterNext(st.linkSequences, collections, f.nxmTable);
  }

  /** An accepted delete empties every list of the object; no other list of any field of any class changes. */
  lemma DeleteLinks(classes: Classes, st: Store, code: string, id: string, c: string, f: Field, other: int)
    requires WellFormed(classes) && DeleteSpec(classes, st, code, id).1.Ok?
    requires c in classes && f in classes[c].fields && f.kind.MultiLink?
    ensures Forward(LinksOf(DeleteSpec(classes, st, code, id).0.links, f.nxmTable), other) ==
            if c == code && ParseNum(LongKind, id) == Ok(other) then []
            else Forward(LinksOf(st.links, f.nxmTable), other)
  {
    var n := PreparedDelete(classes, code, id).value;
    var tables := LinkTablesIn(classes[code].fields);
    assert f.nxmTable in LinkTablesIn(classes[c].fields);
    assert f.nxmTable in tables <==> c == code;
    ForwardDrop(LinksOf(st.links, f.nxmTable), n, other);
    assert LinksOf(LinksWithout(st.links, n, tables), f.nxmTable) ==
           if c == code then DropFrom(LinksOf(st.links, f.nxmTable), n) else LinksOf(st.links, f.nxmTable);
  }

  // ---------------------------------------------------------------- what the operations do to the rows

  /**
   * After an accepted update the same objects exist, and a column holds the submitted value where the
   * object is the one addressed and the field was submitted, and what it held before everywhere else.
   */
  lemma UpdateCells(classes: Classes, st: Store, code: string, id: string, values: map<string, Input>, key: Key,
                    f: Field)
    requires WellFormed(classes) && UpdateSpec(classes, st, code, id, values).1.Ok?
    requires key in st.rows && key.cls in classes && f in classes[key.cls].fields && f.column.Some?
    ensures var rows := UpdateSpec(classes, st, code, id, values).0.rows;
            && rows.Keys == st.rows.Keys
            && var cell := Cell(rows[key], f.column.value);
               if key.cls == code && ParseNum(LongKind, id) == Ok(key.id) && f.code in values
               then Scalar(cell) == values[f.code]
               else cell == Cell(st.rows[key], f.column.value)
  {
    if key.cls == code {
      OverwrittenCell(classes[code], values, st.rows[key], f);
    }
  }

  lemma OverwrittenCell(cls: ClassInfo, values: map<string, Input>, before: Row, f: Field)
    requires WellFormedClass(cls) && ScalarColumns(cls, values) && f in cls.fields && f.column.Some?
    ensures var cell := Cell(before + Columns(cls.fields, values, true), f.column.value);
            if f.code in values then Scalar(cell) == values[f.code] else cell == Cell(before, f.column.value)
  {
    ColumnsAt(cls.fields, values, true, f);
  }

  /** No other object's row changes, in any column. */
  lemma UpdateLeavesOthers(classes: Classes, st: Store, code: string, id: string, values: map<string, Input>, key: Key)
    requires key in st.rows && !(key.cls == code && ParseNum(LongKind, id) == Ok(key.id))
    ensures var rows := UpdateSpec(classes, st, code, id, values).0.rows; key in rows && rows[key] == st.rows[key]
  {}

  /**
   * An accepted create makes one object, under a number no live object of its class has, and answers the
   * print of that number; all other objects stay as they were.
   */
  lemma CreateMakes(classes: Classes, st: Store, code: string, values: map<string, Input>, last: string)
    returns (n: int)
    requires Invariant(classes, st) && CreateSpec(classes, st, code, values, last).1.Ok?
    ensures CreateSpec(classes, st, code, values, last).1 == Ok(ShowInt(n))
    ensures n >= 1 && forall key | key in st.rows && key.cls == code :: key.id < n
    ensures var rows := CreateSpec(classes, st, code, values, last).0.rows;
            rows.Keys == st.rows.Keys + {Key(code, n)} && forall key | key in st.rows :: rows[key] == st.rows[key]
  {
    n := NextVal(st.idSequences, code);
  }

  /** In the row of that object a column holds the submitted value, and null where none was submitted. */
  lemma CreateCells(classes: Classes, st: Store, code: string, values: map<string, Input>, last: string, n: int,
                    f: Field)
    requires WellFormed(classes) && code in classes && f in classes[code].fields && f.column.Some?
    requires CreateSpec(classes, st, code, values, last).1 == Ok(ShowInt(n))
    ensures var rows := CreateSpec(classes, st, code, values, last).0.rows;
            && Key(code, n) in rows
            && var cell := Cell(rows[Key(code, n)], f.column.value);
               if f.code in values then Scalar(cell) == values[f.code] else cell == Null
  {
    ShowIntInjective(n, NextVal(st.idSequences, code));
    ColumnsAt(classes[code].fields, values, false, f);
  }

  /** An accepted delete removes the one object the id reads as; all other objects stay as they were. */
  lemma DeleteRemoves(classes: Classes, st: Store, code: string, id: string, key: Key)
    requires DeleteSpec(classes, st, code, id).1.Ok?
    ensures var rows := DeleteSpec(classes, st, code, id).0.rows;
            && (key in rows <==> key in st.rows && !(key.cls == code && ParseNum(LongKind, id) == Ok(key.id)))
            && (key in rows ==> rows[key] == st.rows[key])
  {}

  /** A code that no field of the class has, or a collection for a field with a column. */
  predicate Misfit(cls: ClassInfo, code: string, input: Input) {
    (forall f | f in cls.fields :: f.code != code)
    || (input.Ids? && exists f | f in cls.fields :: f.code == code && f.column.Some?)
  }

  /** Exactly when the writes and the delete are refused, and with which error. */
  lemma RefusedIff(classes: Classes, st: Store, code: string, id: string, values: map<string, Input>, last: string)
    ensures var misfit := code !in classes || exists c | c in values :: Misfit(classes[code], c, values[c]);
            var created := CreateSpec(classes, st, code, values, last).1;
            var updated := UpdateSpec(classes, st, code, id, values).1;
            if values == map[] then created == Err(IllegalArgument) && updated == Err(IllegalArgument)
            else if code !in classes then created == Err(NullPointer) && updated == Err(NullPointer)
            else if misfit then created.Err? && updated.Err?
            else created.Ok? && if ParseNum(LongKind, id).Ok? then updated.Ok? else updated == Err(NumberFormat)
    ensures var deleted := DeleteSpec(classes, st, code, id).1;
            if code !in classes then deleted == Err(NullPointer)
            else if ParseNum(LongKind, id).Ok? then deleted.Ok? else deleted == Err(NumberFormat)
  {
    if code in classes {
      var cls := classes[code];
      if c :| c in values && Misfit(cls, c, values[c]) {
        assert !Accepted(cls, values) by {
          if Knows(cls, c) {
            var f :| f in cls.fields && f.code == c && f.column.Some?;
            assert !values[f.code].Scalar?;
          }
        }
      }
      if !Accepted(cls, values) {
        if c :| c in values && !Knows(cls, c) {
          assert Misfit(cls, c, values[c]);
        } else {
          var f :| f in cls.fields && f.column.Some? && f.code in values && !values[f.code].Scalar?;
          assert Misfit(cls, f.code, values[f.code]);
        }
      }
    }
  }

  /**
   * A refused update or delete changes nothing, and a refused create at most draws an id: it does when the
   * class is known, no column gets a collection and the unknown code walked last carries null.
   */
  lemma RefusedChangesNothing(classes: Classes, st: Store, code: string, id: string, values: map<string, Input>,
                              last: string)
    ensures UpdateSpec(classes, st, code, id, values).1.Err? ==> UpdateSpec(classes, st, code, id, values).0 == st
    ensures DeleteSpec(classes, st, code, id).1.Err? ==> DeleteSpec(classes, st, code, id).0 == st
    ensures var (st', r) := CreateSpec(classes, st, code, values, last);
            r.Err? ==>
              && st'.rows == st.rows && st'.links == st.links && st'.docs == st.docs
              && st'.linkSequences == st.linkSequences
              && (st' != st <==>
                    && code in classes && last in values && values[last] == Scalar(Null)
                    && (forall f | f in classes[code].fields :: f.code != last)
                    && forall f | f in classes[code].fields && f.column.Some? && f.code in values ::
                         values[f.code].Scalar?)
  {
    if FailsAfterInsert(classes, code, values, last) {
      assert NextVal(DrawnId(st, code).idSequences, code) != NextVal(st.idSequences, code);
    }
  }

  // ---------------------------------------------------------------- the index

  /** The text a value is indexed as: null as JSON null, text as it is, numbers and booleans as they print. */
  predicate IsIndexedAs(v: Value, text: Option<string>) {
    match v
    case Null => text == None
    case Text(s) => text == Some(s)
    case Num(_, n) => text == Some(ShowInt(n))
    case Bool(b) => text == Some(if b then "true" else "false")
  }

  /** The document of a write holds the text of every submitted single value under its code, and nothing else. */
  lemma WrittenDocument(values: map<string, Input>, code: string)
    ensures code in EventDoc(values) <==> code in values && values[code].Scalar?
    ensures code in values && values[code].Scalar? ==> IsIndexedAs(values[code].v, EventDoc(values)[code])
  {}

  /** A rebuilt document holds the text of every field with a column, under the field's code. */
  lemma RebuiltDocument(cls: ClassInfo, row: Row, code: string)
    requires WellFormedClass(cls)
    ensures code in FullDoc(cls.fields, row) <==> exists f | f in cls.fields :: f.column.Some? && f.code == code
    ensures forall f | f in cls.fields && f.column.Some? && f.code == code ::
              && code in FullDoc(cls.fields, row)
              && IsIndexedAs(Cell(row, f.column.value), FullDoc(cls.fields, row)[code])
  {
    forall f | f in cls.fields && f.column.Some? && f.code == code
      ensures code in FullDoc(cls.fields, row)
      ensures IsIndexedAs(Cell(row, f.column.value), FullDoc(cls.fields, row)[code])
    {
      FullDocAt(cls.fields, row, f);
    }
    if code in FullDoc(cls.fields, row) {
      FullDocCodes(cls.fields, row, code);
    }
  }

  /** Each operation touches one document: that of the object it makes, or of the text the id was sent as. */
  lemma OneDocument(classes: Classes, st: Store, code: string, id: string, values: map<string, Input>, last: string)
    ensures var (st', r) := CreateSpec(classes, st, code, values, last);
            r.Ok? ==> st'.docs == st.docs[DocKey(code, r.value) := EventDoc(values)]
    ensures var (st', r) := UpdateSpec(classes, st, code, id, values);
            r.Ok? ==> st'.docs == st.docs[DocKey(code, id) := EventDoc(values)]
    ensures var (st', r) := DeleteSpec(classes, st, code, id);
            r.Ok? ==> st'.docs == st.docs - {DocKey(code, id)}
  {}

  /** On every field with a column the document holds what a rebuild would write. */
  predicate DocAgrees(cls: ClassInfo, row: Row, doc: Doc) {
    var full := FullDoc(cls.fields, row);
    forall code | code in full :: code in doc && doc[code] == full[code]
  }

  /** A document under the printed id of exactly the live objects, each agreeing with a rebuild. */
  predicate IndexAgrees(classes: Classes, st: Store) {
    && st.docs.Keys == DocKeys(st.rows.Keys)
    && forall key | key in st.rows ::
         key.cls in classes && DocAgrees(classes[key.cls], st.rows[key], st.docs[DocKeyOf(key)])
  }

  lemma DocKeyInjective(a: Key, b: Key)
    ensures DocKeyOf(a) == DocKeyOf(b) <==> a == b
  {
    if DocKeyOf(a) == DocKeyOf(b) {
      ShowIntInjective(a.id, b.id);
    }
  }

  /** A text that reads as a number is some object's printed id only when it is that number's. */
  lemma DocKeyOfText(key: Key, cls: string, id: string)
    requires ParseNum(LongKind, id).Ok?
    ensures DocKeyOf(key) == DocKey(cls, id) <==>
            key == Key(cls, ParseNum(LongKind, id).value) && id == ShowInt(ParseNum(LongKind, id).value)
  {
    PrintedIsCanonical(key.id);
  }

  predicate SuppliesColumns(cls: ClassInfo, values: map<string, Input>) {
    forall f | f in cls.fields && f.column.Some? :: f.code in values
  }

  /** The cells a write leaves behind. */
  lemma CellsAfterWrite(cls: ClassInfo, values: map<string, Input>, withNulls: bool)
    requires WellFormedClass(cls) && Accepted(cls, values)
    ensures forall f | f in cls.fields && f.column.Some? && f.code in values ::
              Cell(Columns(cls.fields, values, withNulls), f.column.value) == values[f.code].v
    ensures withNulls ==> forall f | f in cls.fields && f.column.Some? && f.code in values ::
              f.column.value in Columns(cls.fields, values, withNulls)
  {
    forall f | f in cls.fields && f.column.Some? && f.code in values
      ensures f.column.value in Columns(cls.fields, values, withNulls) <==> Assigns(f, values, withNulls)
      ensures Assigns(f, values, withNulls) ==>
              Columns(cls.fields, values, withNulls)[f.column.value] == values[f.code].v
    {
      ColumnsAt(cls.fields, values, withNulls, f);
    }
  }

  /** The document of an event agrees with the written row exactly when every column was supplied. */
  lemma EventDocAgreesIff(cls: ClassInfo, row: Row, values: map<string, Input>)
    requires WellFormedClass(cls) && Accepted(cls, values)
    requires forall f | f in cls.fields && f.column.Some? && f.code in values ::
             Cell(row, f.column.value) == values[f.code].v
    ensures DocAgrees(cls, row, EventDoc(values)) <==> SuppliesColumns(cls, values)
  {
    forall f | f in cls.fields && f.column.Some?
      ensures f.code in FullDoc(cls.fields, row)
      ensures f.code in EventDoc(values) <==> f.code in values
      ensures f.code in values ==> EventDoc(values)[f.code] == FullDoc(cls.fields, row)[f.code]
    {
      FullDocAt(cls.fields, row, f);
    }
    forall code | code in FullDoc(cls.fields, row)
      ensures exists f | f in cls.fields :: f.column.Some? && f.code == code
    {
      FullDocCodes(cls.fields, row, code);
    }
  }

  /** When one row and its document change, the index agrees exactly when that document does. */
  lemma OneRowAgrees(classes: Classes, st: Store, st': Store, key: Key)
    requires IndexAgrees(classes, st) && key.cls in classes
    requires key in st'.rows && st'.rows == st.rows[key := st'.rows[key]]
    requires DocKeyOf(key) in st'.docs && st'.docs == st.docs[DocKeyOf(key) := st'.docs[DocKeyOf(key)]]
    ensures IndexAgrees(classes, st') <==> DocAgrees(classes[key.cls], st'.rows[key], st'.docs[DocKeyOf(key)])
  {
    assert DocKeys(st'.rows.Keys) == DocKeys(st.rows.Keys) + {DocKeyOf(key)};
    forall k | k in st'.rows && k != key
      ensures k.cls in classes && DocAgrees(classes[k.cls], st'.rows[k], st'.docs[DocKeyOf(k)])
    {
      DocKeyInjective(k, key);
      assert k in st.rows && st.rows[k] == st'.rows[k] && st.docs[DocKeyOf(k)] == st'.docs[DocKeyOf(k)];
    }
  }

  lemma CreatedAgreesIff(classes: Classes, st: Store, code: string, change: Change, values: map<string, Input>)
    requires IndexAgrees(classes, st) && code in classes
    ensures IndexAgrees(classes, Created(st, code, change, values)) <==>
            DocAgrees(classes[code], change.columns, EventDoc(values))
  {
    OneRowAgrees(classes, st, Created(st, code, change, values), Key(code, NextVal(st.idSequences, code)));
  }

  /** A create keeps the index in step exactly when it is refused or every column is supplied. */
  lemma CreateAgreesIff(classes: Classes, st: Store, code: string, values: map<string, Input>, last: string)
    requires WellFormed(classes) && IndexAgrees(classes, st)
    ensures IndexAgrees(classes, CreateSpec(classes, st, code, values, last).0) <==>
            (Prepared(classes, code, values, false).Ok? ==> SuppliesColumns(classes[code], values))
  {
    if Prepared(classes, code, values, false).Ok? {
      var change := Prepared(classes, code, values, false).value;
      CreatedAgreesIff(classes, st, code, change, values);
      CellsAfterWrite(classes[code], values, false);
      EventDocAgreesIff(classes[code], change.columns, values);
    }
  }

  /** A document under a text that no live object's id prints as is one too many. */
  lemma StrayDocument(classes: Classes, st: Store, key: Key, id: string, change: Change, values: map<string, Input>)
    requires ParseNum(LongKind, id) == Ok(key.id)
    requires key !in st.rows || id != ShowInt(key.id)
    ensures !IndexAgrees(classes, Updated(st, key, id, change, values))
  {
    var st' := Updated(st, key, id, change, values);
    assert DocKey(key.cls, id) in st'.docs;
    forall k | k in st'.rows ensures DocKeyOf(k) != DocKey(key.cls, id) {
      DocKeyOfText(k, key.cls, id);
    }
  }

  lemma UpdatedAgreesIff(classes: Classes, st: Store, key: Key, change: Change, values: map<string, Input>)
    requires WellFormed(classes) && IndexAgrees(classes, st)
    requires Prepared(classes, key.cls, values, true) == Ok(change) && key in st.rows
    ensures IndexAgrees(classes, Updated(st, key, ShowInt(key.id), change, values)) <==>
            SuppliesColumns(classes[key.cls], values)
  {
    var st' := Updated(st, key, ShowInt(key.id), change, values);
    CellsAfterWrite(classes[key.cls], values, true);
    EventDocAgreesIff(classes[key.cls], st'.rows[key], values);
    OneRowAgrees(classes, st, st', key);
  }

  /**
   * An update keeps the index in step exactly when it is refused, or its object is live, its id is sent
   * as it is printed and every column is supplied.
   */
  lemma UpdateAgreesIff(classes: Classes, st: Store, code: string, id: string, values: map<string, Input>)
    requires WellFormed(classes) && IndexAgrees(classes, st)
    ensures IndexAgrees(classes, UpdateSpec(classes, st, code, id, values).0) <==>
            var prepared := PreparedUpdate(classes, code, id, values);
            prepared.Ok? ==>
              && Key(code, prepared.value.0) in st.rows && id == ShowInt(prepared.value.0)
              && SuppliesColumns(classes[code], values)
  {
    var prepared := PreparedUpdate(classes, code, id, values);
    if prepared.Ok? {
      var key := Key(code, prepared.value.0);
      if key in st.rows && id == ShowInt(key.id) {
        UpdatedAgreesIff(classes, st, key, prepared.value.1, values);
      } else {
        StrayDocument(classes, st, key, id, prepared.value.1, values);
      }
    }
  }

  lemma DeletedInStep(classes: Classes, st: Store, key: Key, id: string)
    requires IndexAgrees(classes, st) && key.cls in classes && ParseNum(LongKind, id) == Ok(key.id)
    requires key in st.rows ==> id == ShowInt(key.id)
    ensures IndexAgrees(classes, Deleted(classes, st, key, id))
  {
    var st' := Deleted(classes, st, key, id);
    forall k | k in st.rows ensures DocKeyOf(k) == DocKey(key.cls, id) <==> k == key {
      DocKeyOfText(k, key.cls, id);
    }
    forall k | k in st'.rows ensures DocAgrees(classes[k.cls], st'.rows[k], st'.docs[DocKeyOf(k)]) {
      assert k in st.rows;
    }
  }

  lemma DeletedLeavesStray(classes: Classes, st: Store, key: Key, id: string)
    requires IndexAgrees(classes, st) && key.cls in classes && key in st.rows && id != ShowInt(key.id)
    ensures !IndexAgrees(classes, Deleted(classes, st, key, id))
  {
    var st' := Deleted(classes, st, key, id);
    forall k | k in st'.rows ensures DocKeyOf(k) != DocKeyOf(key) {
      DocKeyInjective(k, key);
    }
    assert DocKeyOf(key) in st.docs && DocKeyOf(key) in st'.docs;
  }

  /** A delete keeps the index in step exactly when it is refused, hits no row, or its id is sent as it is printed. */
  lemma DeleteAgreesIff(classes: Classes, st: Store, code: string, id: string)
    requires IndexAgrees(classes, st)
    ensures IndexAgrees(classes, DeleteSpec(classes, st, code, id).0) <==>
            var prepared := PreparedDelete(classes, code, id);
            prepared.Ok? && Key(code, prepared.value) in st.rows ==> id == ShowInt(prepared.value)
  {
    var prepared := PreparedDelete(classes, code, id);
    if prepared.Ok? {
      var key := Key(code, prepared.value);
      if key in st.rows && id != ShowInt(key.id) {
        DeletedLeavesStray(classes, st, key, id);
      } else {
        DeletedInStep(classes, st, key, id);
      }
    }
  }

  /** Sent as `007`, an update of object 7 and its deletion each leave the index out of step. */
  lemma PaddedIdBreaksIndex(classes: Classes, st: Store, code: string, values: map<string, Input>)
    requires WellFormed(classes) && IndexAgrees(classes, st)
    requires Key(code, 7) in st.rows && Prepared(classes, code, values, true).Ok?
    ensures !IndexAgrees(classes, UpdateSpec(classes, st, code, "007", values).0)
    ensures !IndexAgrees(classes, DeleteSpec(classes, st, code, "007").0)
    ensures Key(code, 7) !in DeleteSpec(classes, st, code, "007").0.rows
  {
    PaddedNotCanonical();
    UpdateAgreesIff(classes, st, code, "007", values);
    DeleteAgreesIff(classes, st, code, "007");
  }

  const EXAMPLE_CLASS := ClassInfo("c", [Field("name", StringType, Some("name"), None, "")], {})

  /** One object, number 7, with the document a rebuild would write. */
  const EXAMPLE_STORE :=
    Store(map[Key("c", 7) := map["name" := Text("old")]], map["c" := 8], map[], map[],
          map[DocKey("c", "7") := map["name" := Some("old")]])

  lemma ExampleAgrees()
    ensures IndexAgrees(map["c" := EXAMPLE_CLASS], EXAMPLE_STORE)
  {
    var fields, row := EXAMPLE_CLASS.fields, EXAMPLE_STORE.rows[Key("c", 7)];
    PaddedNotCanonical();
    assert DocKeys({Key("c", 7)}) == {DocKey("c", "7")};
    assert fields[..0] == [] && FullDoc(fields, row) == map["name" := Some("old")];
  }

  const EXAMPLE_UPDATE: map<string, Input> := map["name" := Scalar(Text("new"))]

  lemma ExampleAccepted()
    ensures Accepted(EXAMPLE_CLASS, EXAMPLE_UPDATE) && SuppliesColumns(EXAMPLE_CLASS, EXAMPLE_UPDATE)
    ensures WellFormed(map["c" := EXAMPLE_CLASS])
  {
    assert EXAMPLE_CLASS.fields[0] in EXAMPLE_CLASS.fields;
    assert Knows(EXAMPLE_CLASS, "name");
  }

  /** A store on which it does. */
  lemma PaddedIdExample()
    ensures var classes := map["c" := EXAMPLE_CLASS];
            && WellFormed(classes) && IndexAgrees(classes, EXAMPLE_STORE)
            && SuppliesColumns(EXAMPLE_CLASS, EXAMPLE_UPDATE)
            && !IndexAgrees(classes, UpdateSpec(classes, EXAMPLE_STORE, "c", "007", EXAMPLE_UPDATE).0)
            && !IndexAgrees(classes, DeleteSpec(classes, EXAMPLE_STORE, "c", "007").0)
  {
    var classes := map["c" := EXAMPLE_CLASS];
    ExampleAgrees();
    ExampleAccepted();
    assert EXAMPLE_UPDATE != map[] by {
      assert "name" in EXAMPLE_UPDATE;
    }
    assert Prepared(classes, "c", EXAMPLE_UPDATE, true).Ok?;
    PaddedIdBreaksIndex(classes, EXAMPLE_STORE, "c", EXAMPLE_UPDATE);
  }

  /** A full rebuild repairs every live document but removes none: it agrees exactly when nothing was stale. */
  lemma FullIndexAgreesIff(classes: Classes, st: Store, docs': map<DocKey, Doc>)
    requires forall key | key in st.rows :: key.cls in classes
    requires IsFullIndex(classes, st.rows, st.docs, docs')
    ensures IndexAgrees(classes, st.(docs := docs')) <==> st.docs.Keys <= DocKeys(st.rows.Keys)
  {
    assert Known(classes, st.rows) == st.rows.Keys;
  }

  // ---------------------------------------------------------------- runs

  datatype Operation =
    | Create(code: string, values: map<string, Input>, last: string)
    | Update(code: string, id: string, values: map<string, Input>)
    | Delete(code: string, id: string)

  function Step(classes: Classes, st: Store, op: Operation): Store {
    match op
    case Create(code, values, last) => CreateSpec(classes, st, code, values, last).0
    case Update(code, id, values) => UpdateSpec(classes, st, code, id, values).0
    case Delete(code, id) => DeleteSpec(classes, st, code, id).0
  }

  function Run(classes: Classes, st: Store, ops: seq<Operation>): Store {
    if ops == [] then st else Step(classes, Run(classes, st, ops[..|ops| - 1]), ops[|ops| - 1])
  }

  /** An update that is carried out addresses a live object. */
  predicate OnLiveId(classes: Classes, st: Store, op: Operation) {
    op.Update? ==>
      var prepared := PreparedUpdate(classes, op.code, op.id, op.values);
      prepared.Ok? ==> Key(op.code, prepared.value.0) in st.rows
  }

  /** So does every update of a run, at the moment it runs. */
  predicate OnLiveIds(classes: Classes, st: Store, ops: seq<Operation>) {
    ops == [] ||
    var front := ops[..|ops| - 1];
    OnLiveIds(classes, st, front) && OnLiveId(classes, Run(classes, st, front), ops[|ops| - 1])
  }

  /** What one operation must meet to leave the index in step, each case exact. */
  predicate StaysInStep(classes: Classes, st: Store, op: Operation) {
    match op
    case Create(code, values, last) =>
      Prepared(classes, code, values, false).Ok? ==> SuppliesColumns(classes[code], values)
    case Update(code, id, values) =>
      var prepared := PreparedUpdate(classes, code, id, values);
      prepared.Ok? ==>
        && Key(code, prepared.value.0) in st.rows && id == ShowInt(prepared.value.0)
        && SuppliesColumns(classes[code], values)
    case Delete(code, id) =>
      var prepared := PreparedDelete(classes, code, id);
      prepared.Ok? && Key(code, prepared.value) in st.rows ==> id == ShowInt(prepared.value)
  }

  predicate AllStayInStep(classes: Classes, st: Store, ops: seq<Operation>) {
    ops == [] ||
    var front := ops[..|ops| - 1];
    AllStayInStep(classes, st, front) && StaysInStep(classes, Run(classes, st, front), ops[|ops| - 1])
  }

  lemma StepKeepsInvariant(classes: Classes, st: Store, op: Operation)
    requires WellFormed(classes) && Invariant(classes, st) && OnLiveId(classes, st, op)
    ensures Invariant(classes, Step(classes, st, op))
  {
    match op
    case Create(code, values, last) => CreateKeepsInvariant(classes, st, code, values, last);
    case Update(code, id, values) => UpdateKeepsInvariantIff(classes, st, code, id, values);
    case Delete(code, id) => DeleteKeepsInvariant(classes, st, code, id);
  }

  lemma StepKeepsIdsDrawn(classes: Classes, st: Store, op: Operation)
    requires IdsDrawn(classes, st.rows, st.idSequences)
    ensures var st' := Step(classes, st, op); IdsDrawn(classes, st'.rows, st'.idSequences)
  {
    if op.Create? && Prepared(classes, op.code, op.values, false).Ok? {
      CreatedIdsDrawn(classes, st, op.code, Prepared(classes, op.code, op.values, false).value.columns);
    }
  }

  lemma StepInStepIff(classes: Classes, st: Store, op: Operation)
    requires WellFormed(classes) && IndexAgrees(classes, st)
    ensures IndexAgrees(classes, Step(classes, st, op)) <==> StaysInStep(classes, st, op)
  {
    match op
    case Create(code, values, last) => CreateAgreesIff(classes, st, code, values, last);
    case Update(code, id, values) => UpdateAgreesIff(classes, st, code, id, values);
    case Delete(code, id) => DeleteAgreesIff(classes, st, code, id);
  }

  lemma {:induction false} RunKeepsInvariant(classes: Classes, st: Store, ops: seq<Operation>)
    requires WellFormed(classes) && Invariant(classes, st) && OnLiveIds(classes, st, ops)
    ensures Invariant(classes, Run(classes, st, ops))
  {
    if ops != [] {
      var front := ops[..|ops| - 1];
      RunKeepsInvariant(classes, st, front);
      StepKeepsInvariant(classes, Run(classes, st, front), ops[|ops| - 1]);
    }
  }

  lemma {:induction false} RunKeepsIdsDrawn(classes: Classes, st: Store, ops: seq<Operation>)
    requires IdsDrawn(classes, st.rows, st.idSequences)
    ensures var st' := Run(classes, st, ops); IdsDrawn(classes, st'.rows, st'.idSequences)
  {
    if ops != [] {
      var front := ops[..|ops| - 1];
      RunKeepsIdsDrawn(classes, st, front);
      StepKeepsIdsDrawn(classes, Run(classes, st, front), ops[|ops| - 1]);
    }
  }

  predicate AgreesAfter(classes: Classes, st: Store, ops: seq<Operation>, i: nat)
    requires i <= |ops|
  {
    IndexAgrees(classes, Run(classes, st, ops[..i]))
  }

  /** After every operation of the run the index agrees with a rebuild. */
  ghost predicate AgreesThroughout(classes: Classes, st: Store, ops: seq<Operation>) {
    forall i {:trigger AgreesAfter(classes, st, ops, i)} | 0 <= i <= |ops| :: AgreesAfter(classes, st, ops, i)
  }

  lemma AgreesBefore(classes: Classes, st: Store, front: seq<Operation>, last: Operation, i: nat)
    requires i <= |front|
    ensures AgreesAfter(classes, st, front + [last], i) <==> AgreesAfter(classes, st, front, i)
  {
    assert (front + [last])[..i] == front[..i];
  }

  lemma AgreesLast(classes: Classes, st: Store, front: seq<Operation>, last: Operation)
    ensures AgreesAfter(classes, st, front + [last], |front| + 1) <==>
            IndexAgrees(classes, Step(classes, Run(classes, st, front), last))
  {
    var ops := front + [last];
    assert ops[..|front| + 1] == ops && ops[..|ops| - 1] == front;
  }

  lemma AgreesShorter(classes: Classes, st: Store, front: seq<Operation>, last: Operation)
    requires AgreesThroughout(classes, st, front + [last])
    ensures AgreesThroughout(classes, st, front)
    ensures AgreesAfter(classes, st, front + [last], |front| + 1)
  {
    forall i | 0 <= i <= |front| ensures AgreesAfter(classes, st, front, i) {
      AgreesBefore(classes, st, front, last, i);
    }
  }

  lemma AgreesLonger(classes: Classes, st: Store, front: seq<Operation>, last: Operation)
    requires AgreesThroughout(classes, st, front) && AgreesAfter(classes, st, front + [last], |front| + 1)
    ensures AgreesThroughout(classes, st, front + [last])
  {
    var ops := front + [last];
    forall i | 0 <= i <= |ops| ensures AgreesAfter(classes, st, ops, i) {
      if i <= |front| {
        AgreesBefore(classes, st, front, last, i);
      }
    }
  }

  lemma AgreesNext(classes: Classes, st: Store, front: seq<Operation>, last: Operation)
    ensures AgreesThroughout(classes, st, front + [last]) <==>
            AgreesThroughout(classes, st, front) && AgreesAfter(classes, st, front + [last], |front| + 1)
  {
    if AgreesThroughout(classes, st, front + [last]) {
      AgreesShorter(classes, st, front, last);
    }
    if AgreesThroughout(classes, st, front) && AgreesAfter(classes, st, front + [last], |front| + 1) {
      AgreesLonger(classes, st, front, last);
    }
  }

  /** The index agrees with a rebuild throughout a run if and only if each operation keeps it in step. */
  lemma {:induction false} RunInStepIff(classes: Classes, st: Store, ops: seq<Operation>)
    requires WellFormed(classes) && IndexAgrees(classes, st)
    ensures AgreesThroughout(classes, st, ops) <==> AllStayInStep(classes, st, ops)
  {
    if ops != [] {
      var front, last := ops[..|ops| - 1], ops[|ops| - 1];
      assert ops == front + [last];
      RunInStepIff(classes, st, front);
      AgreesNext(classes, st, front, last);
      AgreesLast(classes, st, front, last);
      AgreesAtEnd(classes, st, front);
      if IndexAgrees(classes, Run(classes, st, front)) {
        StepInStepIff(classes, Run(classes, st, front), last);
      }
    }
  }

  lemma AgreesAtEnd(classes: Classes, st: Store, ops: seq<Operation>)
    ensures AgreesThroughout(classes, st, ops) ==> IndexAgrees(classes, Run(classes, st, ops))
  {
    assert ops[..|ops|] == ops;
    assert AgreesThroughout(classes, st, ops) ==> AgreesAfter(classes, st, ops, |ops|);
  }

  /** Every write to a known class supplies every field with a column. */
  predicate Complete(classes: Classes, ops: seq<Operation>) {
    forall op | op in ops && !op.Delete? && op.code in classes :: SuppliesColumns(classes[op.code], op.values)
  }

  /** Ids of updates and deletes that read as a number are sent as it is printed. */
  predicate SentAsPrinted(ops: seq<Operation>) {
    forall op | op in ops && !op.Create? :: ParseNum(LongKind, op.id).Ok? ==> Canonical(op.id)
  }

  lemma CompleteStaysInStep(classes: Classes, st: Store, op: Operation)
    requires OnLiveId(classes, st, op) && Complete(classes, [op]) && SentAsPrinted([op])
    ensures StaysInStep(classes, st, op)
  {
    assert op in [op];
  }

  lemma {:induction false} CompleteRunStaysInStep(classes: Classes, st: Store, ops: seq<Operation>)
    requires OnLiveIds(classes, st, ops) && Complete(classes, ops) && SentAsPrinted(ops)
    ensures AllStayInStep(classes, st, ops)
  {
    if ops != [] {
      var front, last := ops[..|ops| - 1], ops[|ops| - 1];
      CompleteRunStaysInStep(classes, st, front);
      CompleteStaysInStep(classes, Run(classes, st, front), last);
    }
  }

  /** What a client can see to in advance: live objects, complete writes, ids as they are printed. */
  lemma RunKeepsIndex(classes: Classes, st: Store, ops: seq<Operation>)
    requires WellFormed(classes) && IndexAgrees(classes, st)
    requires OnLiveIds(classes, st, ops) && Complete(classes, ops) && SentAsPrinted(ops)
    ensures IndexAgrees(classes, Run(classes, st, ops))
  {
    CompleteRunStaysInStep(classes, st, ops);
    RunInStepIff(classes, st, ops);
    AgreesAtEnd(classes, st, ops);
  }

  lemma StepDrawsForward(classes: Classes, st: Store, op: Operation, code: string)
    ensures NextVal(Step(classes, st, op).idSequences, code) >= NextVal(st.idSequences, code)
  {}

  lemma {:induction false} RunDrawsForward(classes: Classes, st: Store, ops: seq<Operation>, i: nat, code: string)
    requires i <= |ops|
    ensures NextVal(Run(classes, st, ops).idSequences, code) >= NextVal(Run(classes, st, ops[..i]).idSequences, code)
    decreases |ops|
  {
    if i < |ops| {
      var front := ops[..|ops| - 1];
      assert front[..i] == ops[..i];
      RunDrawsForward(classes, st, front, i, code);
      StepDrawsForward(classes, Run(classes, st, front), ops[|ops| - 1], code);
    } else {
      assert ops[..i] == ops;
    }
  }

  /** What a create in the middle of a run answers. */
  function AnswerAt(classes: Classes, st: Store, ops: seq<Operation>, i: nat): Result<string>
    requires i < |ops| && ops[i].Create?
  {
    CreateSpec(classes, Run(classes, st, ops[..i]), ops[i].code, ops[i].values, ops[i].last).1
  }

  /** No id is ever given twice: two accepted creates of a class answer different ids, whatever happens between. */
  lemma IdsNeverReused(classes: Classes, st: Store, ops: seq<Operation>, i: nat, j: nat)
    requires i < j < |ops| && ops[i].Create? && ops[j].Create? && ops[i].code == ops[j].code
    requires AnswerAt(classes, st, ops, i).Ok? && AnswerAt(classes, st, ops, j).Ok?
    ensures AnswerAt(classes, st, ops, i) != AnswerAt(classes, st, ops, j)
  {
    var code := ops[i].code;
    var m := NextVal(Run(classes, st, ops[..i]).idSequences, code);
    var n := NextVal(Run(classes, st, ops[..j]).idSequences, code);
    assert ops[..j][..i + 1] == ops[..i + 1] && ops[..i + 1][..i] == ops[..i];
    RunDrawsForward(classes, st, ops[..j], i + 1, code);
    assert Run(classes, st, ops[..i + 1]) == Step(classes, Run(classes, st, ops[..i]), ops[i]);
    if ShowInt(m) == ShowInt(n) {
      ShowIntInjective(m, n);
    }
  }

  /**
   * From the empty store, over any run: the link tables are sound when updates address live objects,
   * and the incremental index is the one a full rebuild would produce exactly as long as every
   * operation keeps it in step.
   */
  lemma EveryRun(classes: Classes, ops: seq<Operation>)
    requires WellFormed(classes)
    ensures OnLiveIds(classes, EMPTY_STORE, ops) ==> Invariant(classes, Run(classes, EMPTY_STORE, ops))
    ensures AgreesThroughout(classes, EMPTY_STORE, ops) <==> AllStayInStep(classes, EMPTY_STORE, ops)
  {
    if OnLiveIds(classes, EMPTY_STORE, ops) {
      RunKeepsInvariant(classes, EMPTY_STORE, ops);
    }
    RunInStepIff(classes, EMPTY_STORE, ops);
  }

  /**
   * In every reachable store the compiled equality on a MULTILINK field keeps exactly the live objects
   * whose forward list holds the value: ids come from sequences, so none is the stand-in 0.
   */
  lemma MultilinkQueryExact(classes: Classes, ops: seq<Operation>, key: Key, f: Field, v: Value)
    requires key in Run(classes, EMPTY_STORE, ops).rows
    requires f.kind.MultiLink? && !v.Null? && ParseNum(LongKind, Show(v)).Ok?
    ensures var st := Run(classes, EMPTY_STORE, ops);
            MultilinkExact(f, v, st.links, key.id, Record(st.rows, key))
  {
    RunKeepsIdsDrawn(classes, EMPTY_STORE, ops);
    var st := Run(classes, EMPTY_STORE, ops);
    MultilinkExactIff(f, v, st.links, key.id, Record(st.rows, key));
  }
}
