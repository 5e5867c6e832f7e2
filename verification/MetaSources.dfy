/**
 * From what the loaders read to the objects of the initialised graph: every content row has its class
 * object, and every field builder and dynamic row its field object, linked as the builder or row says.
 */
module MetaSources {
  import opened Wrappers
  import opened Meta
  import opened MetaRecords
  import opened MetaObjects
  import opened MetaInitializer
  import opened MetaGraphProofs

  // ---------------------------------------------------------------- classes

  /** The loader reads a class with these properties: a row of the content table, or a static content. */
  predicate ReadsClass(l: MetaLoader, id: string, code: string, table: string, dataSource: string) {
    match l
    case DynamicContentLoader(source, contents, _) => (id, code, table) in contents && dataSource == source
    case StaticContentLoader(statics) =>
      exists s | s in statics :: s.id == id && s.code == code && s.table == table && s.dataSource == dataSource
  }

  lemma RowsAreRead(l: MetaLoader, c: ClassRecord)
    ensures c in ClassRows(l) <==> ReadsClass(l, c.id, c.code, c.table, c.dataSource)
  {
    var rows := ClassRows(l);
    match l {
      case DynamicContentLoader(source, contents, _) =>
        if (c.id, c.code, c.table) in contents && c.dataSource == source {
          var i :| 0 <= i < |contents| && contents[i] == (c.id, c.code, c.table);
          assert rows[i] == c;
        }
      case StaticContentLoader(statics) =>
        if s :| s in statics && s.id == c.id && s.code == c.code && s.table == c.table && s.dataSource == c.dataSource {
          var i :| 0 <= i < |statics| && statics[i] == s;
          assert rows[i] == c;
        }
    }
  }

  predicate OncePerId(classes: seq<ClassRecord>) {
    forall i, j | 0 <= i < j < |classes| :: classes[i].id != classes[j].id
  }

  /** Putting a class: the one put again keeps its code and table and takes the data source, the others stay. */
  lemma {:induction false} PutClassIs(classes: seq<ClassRecord>, r: ClassRecord, c: ClassRecord)
    requires OncePerId(classes) && c in PutClass(classes, r)
    ensures c.id != r.id ==> c in classes
    ensures c.id == r.id ==> if r.id !in ClassIds(classes) then c == r
                             else exists d | d in classes :: d.id == r.id && c == d.(dataSource := r.dataSource)
  {
    if classes != [] {
      var rest := classes[1..];
      assert classes == [classes[0]] + rest && classes[0] in classes;
      if classes[0].id != r.id && c != classes[0] {
        PutClassIs(rest, r, c);
        assert r.id in ClassIds(classes) ==> r.id in ClassIds(rest);
      } else if c in rest {
        var k :| 0 <= k < |rest| && rest[k] == c;
        assert classes[k + 1] == c;
      }
    }
  }

  /** Of the rows with its id the first, at i, gives the code and table and the last, at k, the data source. */
  predicate FromRows(records: seq<ClassRecord>, c: ClassRecord, i: nat, k: nat) {
    && i < |records| && records[i].id == c.id && records[i].code == c.code && records[i].table == c.table
    && (forall j | 0 <= j < i :: records[j].id != c.id)
    && k < |records| && records[k].id == c.id && records[k].dataSource == c.dataSource
    && forall j | k < j < |records| :: records[j].id != c.id
  }

  lemma FromRowsNext(front: seq<ClassRecord>, last: ClassRecord, d: ClassRecord, i: nat, k: nat)
    requires FromRows(front, d, i, k)
    ensures last.id != d.id ==> FromRows(front + [last], d, i, k)
    ensures last.id == d.id ==> FromRows(front + [last], d.(dataSource := last.dataSource), i, |front|)
  {}

  lemma FromRowsFirst(front: seq<ClassRecord>, last: ClassRecord)
    requires last.id !in ClassIds(front)
    ensures FromRows(front + [last], last, |front|, |front|)
  {
    forall j | 0 <= j < |front| ensures front[j].id != last.id {
      assert front[j].id in ClassIds(front);
    }
  }

  lemma {:induction false} PutClassesFrom(records: seq<ClassRecord>, c: ClassRecord) returns (i: nat, k: nat)
    requires c in PutClasses(records)
    ensures FromRows(records, c, i, k)
  {
    var front, last := records[..|records| - 1], records[|records| - 1];
    assert records == front + [last];
    LoadedOnce(front);
    PutClassIs(PutClasses(front), last, c);
    if c.id != last.id {
      i, k := PutClassesFrom(front, c);
      FromRowsNext(front, last, c, i, k);
    } else if last.id in ClassIds(front) {
      var d :| d in PutClasses(front) && d.id == last.id && c == d.(dataSource := last.dataSource);
      i, k := PutClassesFrom(front, d);
      FromRowsNext(front, last, d, i, k);
      k := |front|;
    } else {
      i, k := |front|, |front|;
      FromRowsFirst(front, last);
    }
  }

  /** A class that the initialisation loads is read by some loader, its data source with the same id. */
  lemma LoadedFrom(loaders: seq<MetaLoader>, c: ClassRecord)
    requires c in AllClasses(loaders)
    ensures exists l, dataSource | l in loaders :: ReadsClass(l, c.id, c.code, c.table, dataSource)
    ensures exists l, code, table | l in loaders :: ReadsClass(l, c.id, code, table, c.dataSource)
  {
    var l := AllClassesFrom(loaders, c);
    var i, k := PutClassesFrom(ClassRows(l), c);
    RowsAreRead(l, ClassRows(l)[i]);
    RowsAreRead(l, ClassRows(l)[k]);
  }

  /** Every class object has the id, code and table of a class that some loader reads. */
  lemma ObjectIsRead(g: Graph, loaders: seq<MetaLoader>, c: MetaClass)
    requires IsGraphOf(g, loaders) && c in g.objects
    ensures exists l, dataSource | l in loaders :: ReadsClass(l, c.id, c.code, c.table, dataSource)
  {
    var k :| 0 <= k < |g.objects| && g.objects[k] == c;
    LoadedFrom(loaders, AllClasses(loaders)[k]);
  }

  /** And every class that a loader reads has an object, found by its id. */
  lemma ReadHasObject(g: Graph, loaders: seq<MetaLoader>, l: MetaLoader, id: string, code: string, table: string,
                      dataSource: string)
    requires IsGraphOf(g, loaders) && l in loaders && ReadsClass(l, id, code, table, dataSource)
    ensures id in g.byId && g.byId[id] in g.objects && g.byId[id].id == id
  {
    var c := ClassRecord(id, code, table, dataSource);
    RowsAreRead(l, c);
    LoadedOnce(ClassRows(l));
    assert id in ClassIds(ClassRows(l));
    var d :| d in ClassesOf(l) && d.id == id;
    AllClassesHave(loaders, l, d);
  }

  /** A class id is served by a data source that some loader reads with it. */
  lemma {:induction false} SourceIsRead(loaders: seq<MetaLoader>, classes: seq<ClassRecord>, id: string)
    requires forall c | c in classes :: c in AllClasses(loaders)
    requires id in SourcesOf(classes)
    ensures exists l, code, table | l in loaders :: ReadsClass(l, id, code, table, SourcesOf(classes)[id])
  {
    var last := classes[|classes| - 1];
    if last.id == id {
      LoadedFrom(loaders, last);
    } else {
      assert forall c | c in classes[..|classes| - 1] :: c in classes;
      SourceIsRead(loaders, classes[..|classes| - 1], id);
    }
  }

  // ---------------------------------------------------------------- the class a reference names

  predicate Answers(c: MetaClass, ref: Ref) {
    match ref
    case ById(id) => c.id == id
    case ByCode(code) => c.code == code
  }

  lemma CodeOfObject(g: Graph, loaders: seq<MetaLoader>, c: ClassRecord)
    requires IsGraphOf(g, loaders) && OneRowEach(AllClasses(loaders)) && c in AllClasses(loaders)
    ensures c.id in g.byId && g.byId[c.id] in g.objects && g.byId[c.id].id == c.id && g.byId[c.id].code == c.code
  {
    var k :| 0 <= k < |g.objects| && g.objects[k] == g.byId[c.id];
    assert AllClasses(loaders)[k] in AllClasses(loaders);
  }

  /** The object a reference resolves to answers it; it resolves to none only when no object does. */
  lemma ClassNamed(g: Graph, loaders: seq<MetaLoader>, ref: Ref)
    requires IsGraphOf(g, loaders) && OneRowEach(AllClasses(loaders))
    ensures var c := ObjectOf(g.byId, Resolve(AllClasses(loaders), ref));
            && (c != null ==> c in g.objects && Answers(c, ref) && c.id in g.byId && g.byId[c.id] == c)
            && (c == null ==> forall d | d in g.objects :: !Answers(d, ref))
  {
    var classes := AllClasses(loaders);
    ResolveFinds(classes, ref);
    if Resolve(classes, ref).Some? {
      var k :| 0 <= k < |classes| && Names(classes[k], ref) && classes[k].id == Resolve(classes, ref).value;
      CodeOfObject(g, loaders, classes[k]);
    } else {
      forall d | d in g.objects ensures !Answers(d, ref) {
        var k :| 0 <= k < |g.objects| && g.objects[k] == d;
        assert classes[k] in classes;
      }
    }
  }

  // ---------------------------------------------------------------- fields

  /** The object of a class's list that answers the target of one of its fields. */
  predicate Targets(h: MetaField, target: Ref) {
    match target
    case ById(id) => h.id == id
    case ByCode(code) => h.code == code
  }

  /** The class answers the record's owner and lists the field. */
  ghost predicate Owns(g: Graph, r: FieldRecord, f: MetaField) {
    && f.owner != null && f.owner in g.objects && Answers(f.owner, r.owner)
    && f.owner.id in g.lists && f in g.lists[f.owner.id]
  }

  /** The linked class answers the record's link; it may be missing when no class answers, or there is no link. */
  ghost predicate Links(g: Graph, r: FieldRecord, f: MetaField) {
    if f.linkToMetaClass == null then
      r.link.None? || (!r.required && forall d | d in g.objects :: !Answers(d, r.link.value))
    else r.link.Some? && f.linkToMetaClass in g.objects && Answers(f.linkToMetaClass, r.link.value)
  }

  /** What the field refers back to is in the linked class's list and answers the record's target. */
  ghost predicate RefersBack(g: Graph, r: FieldRecord, f: MetaField) {
    f.backReferenceField != null ==>
      && r.target.Some? && Targets(f.backReferenceField, r.target.value)
      && f.linkToMetaClass != null && f.linkToMetaClass.id in g.lists
      && f.backReferenceField in g.lists[f.linkToMetaClass.id]
  }

  /** A back reference refers back when a field of the linked class that is no back reference answers the target. */
  ghost predicate Resolves(g: Graph, r: FieldRecord, f: MetaField) {
    f.kind.BackReference? && r.target.Some? && f.linkToMetaClass != null && f.linkToMetaClass.id in g.lists ==>
      forall h | h in g.lists[f.linkToMetaClass.id] && !h.kind.BackReference? && Targets(h, r.target.value) ::
        f.backReferenceField != null
  }

  /** A field object as its record asks, in terms of objects. */
  ghost predicate Linked(g: Graph, r: FieldRecord, f: MetaField) {
    IsRecord(f, r) && Owns(g, r, f) && Links(g, r, f) && RefersBack(g, r, f) && Resolves(g, r, f)
  }

  lemma BuiltFound(g: Graph, loaders: seq<MetaLoader>, cls: string, s: Source, second: bool, f: MetaField)
    requires IsGraphOf(g, loaders) && IsBuilt(g.byId, g.lists, AllClasses(loaders), loaders, f, cls, s, second)
    requires f.backReferenceField != null
    ensures var link := ResolveLink(AllClasses(loaders), s.r);
            && link.Some? && link.value in g.lists && f.backReferenceField in g.lists[link.value]
            && s.r.target.Some? && Targets(f.backReferenceField, s.r.target.value)
  {
    var classes := AllClasses(loaders);
    var link, k := ResolveLink(classes, s.r).value, TargetIndex(classes, loaders, s.loader, s.r, second).value;
    SeenIsPrefix(classes, loaders, s.loader, link, second);
    var final := Final(classes, loaders, link);
    assert final[k] == Seen(classes, loaders, s.loader, link, second)[k];
    assert Mirrors(g.lists[link], final) && IsRecord(g.lists[link][k], final[k]);
  }

  lemma ListedIsOwned(g: Graph, loaders: seq<MetaLoader>, cls: string, h: MetaField) returns (r: FieldRecord)
    requires IsGraphOf(g, loaders) && cls in g.lists && h in g.lists[cls]
    ensures IsRecord(h, r) && r in AllFields(loaders) && OwnedBy(AllClasses(loaders), r, cls)
  {
    var classes := AllClasses(loaders);
    var p :| 0 <= p < |g.lists[cls]| && g.lists[cls][p] == h;
    r := Final(classes, loaders, cls)[p];
    assert Mirrors(g.lists[cls], Final(classes, loaders, cls));
    SeenIsOwned(classes, loaders, |loaders|, cls, r);
  }

  lemma BuiltResolves(g: Graph, loaders: seq<MetaLoader>, cls: string, s: Source, f: MetaField, h: MetaField)
    requires IsGraphOf(g, loaders) && IsBuilt(g.byId, g.lists, AllClasses(loaders), loaders, f, cls, s, true)
    requires var link := ResolveLink(AllClasses(loaders), s.r);
             link.Some? && link.value in g.lists && h in g.lists[link.value]
    requires !h.kind.BackReference? && s.r.target.Some? && Targets(h, s.r.target.value)
    ensures f.backReferenceField != null
  {
    var classes, link := AllClasses(loaders), ResolveLink(AllClasses(loaders), s.r).value;
    var r := ListedIsOwned(g, loaders, link, h);
    assert Matches(classes, r, link, s.r.target.value, false);
    BackReferenceResolvesIff(classes, loaders, s.loader, s.r, true);
  }

  lemma BuiltOwns(g: Graph, loaders: seq<MetaLoader>, cls: string, r: FieldRecord, f: MetaField)
    requires IsGraphOf(g, loaders) && OneRowEach(AllClasses(loaders)) && cls in g.lists && f in g.lists[cls]
    requires OwnedBy(AllClasses(loaders), r, cls) && f.owner == ObjectOf(g.byId, Some(cls))
    ensures Owns(g, r, f) && f.owner.id == cls
  {
    ClassNamed(g, loaders, r.owner);
    assert g.lists.Keys == g.byId.Keys;
  }

  lemma BuiltLinks(g: Graph, loaders: seq<MetaLoader>, r: FieldRecord, f: MetaField)
    requires IsGraphOf(g, loaders) && OneRowEach(AllClasses(loaders)) && Loaded(AllClasses(loaders), r)
    requires f.linkToMetaClass == ObjectOf(g.byId, ResolveLink(AllClasses(loaders), r))
    ensures Links(g, r, f)
    ensures f.linkToMetaClass != null ==> ResolveLink(AllClasses(loaders), r) == Some(f.linkToMetaClass.id)
    ensures f.linkToMetaClass == null ==> ResolveLink(AllClasses(loaders), r) == None
  {
    ObjectsComplete(g.objects, g.byId, AllClasses(loaders));
    if r.link.Some? {
      ClassNamed(g, loaders, r.link.value);
    }
  }

  lemma BuiltLinked(g: Graph, loaders: seq<MetaLoader>, cls: string, s: Source, second: bool, f: MetaField)
    requires IsGraphOf(g, loaders) && OneRowEach(AllClasses(loaders)) && cls in g.lists && f in g.lists[cls]
    requires IsBuilt(g.byId, g.lists, AllClasses(loaders), loaders, f, cls, s, second)
    requires OwnedBy(AllClasses(loaders), s.r, cls) && InPass(s.r, second)
    ensures Linked(g, s.r, f) && f.owner.id == cls
  {
    BuiltOwns(g, loaders, cls, s.r, f);
    BuiltLinks(g, loaders, s.r, f);
    if f.backReferenceField != null {
      BuiltFound(g, loaders, cls, s, second, f);
    }
    BuiltBack(g, loaders, cls, s, second, f);
  }

  lemma BuiltBack(g: Graph, loaders: seq<MetaLoader>, cls: string, s: Source, second: bool, f: MetaField)
    requires IsGraphOf(g, loaders) && IsBuilt(g.byId, g.lists, AllClasses(loaders), loaders, f, cls, s, second)
    requires InPass(s.r, second)
    requires f.linkToMetaClass != null ==> ResolveLink(AllClasses(loaders), s.r) == Some(f.linkToMetaClass.id)
    ensures Resolves(g, s.r, f)
  {
    if f.kind.BackReference? && s.r.target.Some? && f.linkToMetaClass != null && f.linkToMetaClass.id in g.lists {
      forall h | h in g.lists[f.linkToMetaClass.id] && !h.kind.BackReference? && Targets(h, s.r.target.value)
        ensures f.backReferenceField != null
      {
        BuiltResolves(g, loaders, cls, s, f, h);
      }
    }
  }

  /** Every record whose classes are loaded has its field object. */
  lemma RecordHasField(g: Graph, loaders: seq<MetaLoader>, r: FieldRecord) returns (f: MetaField)
    requires IsGraphOf(g, loaders) && OneRowEach(AllClasses(loaders)) && r in AllFields(loaders)
    requires exists c | c in g.objects :: Answers(c, r.owner)
    requires r.required && r.link.Some? ==> exists c | c in g.objects :: Answers(c, r.link.value)
    ensures Linked(g, r, f)
  {
    var classes, second := AllClasses(loaders), r.kind.BackReference?;
    ClassNamed(g, loaders, r.owner);
    if r.link.Some? {
      ClassNamed(g, loaders, r.link.value);
    }
    var cls := Resolve(classes, r.owner).value;
    assert g.lists.Keys == g.byId.Keys;
    assert ListBuilt(g.byId, g.lists, classes, loaders, cls);
    SourceIsOwned(classes, loaders, cls, second, r);
    var s :| s in OwnSources(classes, loaders, |loaders|, cls, second) && s.r == r;
    var start := |OwnSources(classes, loaders, |loaders|, cls, false)|;
    var half := if second then g.lists[cls][start..] else g.lists[cls][..start];
    f := SourceHasField(g.byId, g.lists, classes, loaders, half, cls,
                        OwnSources(classes, loaders, |loaders|, cls, second), second, s);
    assert f in g.lists[cls];
    BuiltLinked(g, loaders, cls, s, second, f);
  }

  /** And every field object has a record. */
  lemma FieldHasRecord(g: Graph, loaders: seq<MetaLoader>, cls: string, f: MetaField) returns (r: FieldRecord)
    requires IsGraphOf(g, loaders) && OneRowEach(AllClasses(loaders)) && cls in g.lists && f in g.lists[cls]
    ensures r in AllFields(loaders) && Linked(g, r, f) && f.owner.id == cls
  {
    var classes := AllClasses(loaders);
    var p :| 0 <= p < |g.lists[cls]| && g.lists[cls][p] == f;
    assert g.lists.Keys == g.byId.Keys;
    assert ListBuilt(g.byId, g.lists, classes, loaders, cls);
    var s, second := FieldHasSource(g.byId, g.lists, classes, loaders, cls, p);
    r := s.r;
    SourceIsOwned(classes, loaders, cls, second, r);
    BuiltLinked(g, loaders, cls, s, second, f);
  }

  // ---------------------------------------------------------------- builders and rows

  lemma {:induction false} BuilderHasRecord(statics: seq<StaticContent>, s: StaticContent, b: FieldBuilder)
    requires s in statics && b in s.builders
    ensures BuilderRecord(s, b) in StaticRecords(statics)
  {
    var first := BuilderRecords(statics[0].code, statics[0].builders);
    if s == statics[0] {
      var i :| 0 <= i < |s.builders| && s.builders[i] == b;
      assert first[i] == BuilderRecord(s, b);
    } else {
      BuilderHasRecord(statics[1..], s, b);
    }
  }

  function BuilderRecord(s: StaticContent, b: FieldBuilder): FieldRecord {
    FieldRecord(b.id, ByCode(s.code), b.code, b.kind, RefByCode(b.linkToMetaClass), RefByCode(b.backReferenceField),
                false)
  }

  lemma {:induction false} RecordHasBuilder(statics: seq<StaticContent>, r: FieldRecord)
    returns (s: StaticContent, b: FieldBuilder)
    requires r in StaticRecords(statics)
    ensures s in statics && b in s.builders && r == BuilderRecord(s, b)
  {
    var first := BuilderRecords(statics[0].code, statics[0].builders);
    if r in first {
      var i :| 0 <= i < |first| && first[i] == r;
      s, b := statics[0], statics[0].builders[i];
    } else {
      s, b := RecordHasBuilder(statics[1..], r);
    }
  }

  /**
   * The field a builder of static content stands for: in the list of the class with the content's code,
   * linked to the loaded class with the builder's linked code or to none, and referring back, if at all, to
   * a field of that class with the builder's back reference code. A back reference does refer back when the
   * linked class has such a field that is no back reference.
   */
  ghost predicate OfBuilder(g: Graph, s: StaticContent, b: FieldBuilder, f: MetaField) {
    && f.id == b.id && f.code == b.code && f.kind == b.kind
    && f.owner != null && f.owner in g.objects && f.owner.code == s.code
    && f.owner.id in g.lists && f in g.lists[f.owner.id]
    && (if f.linkToMetaClass == null then
          b.linkToMetaClass.None? || forall d | d in g.objects :: d.code != b.linkToMetaClass.value
        else f.linkToMetaClass in g.objects && b.linkToMetaClass == Some(f.linkToMetaClass.code))
    && (f.backReferenceField != null ==>
          && b.backReferenceField == Some(f.backReferenceField.code)
          && f.linkToMetaClass != null && f.linkToMetaClass.id in g.lists
          && f.backReferenceField in g.lists[f.linkToMetaClass.id])
    && (f.kind.BackReference? && f.linkToMetaClass != null && f.linkToMetaClass.id in g.lists ==>
          forall h | h in g.lists[f.linkToMetaClass.id] && !h.kind.BackReference? ::
            b.backReferenceField == Some(h.code) ==> f.backReferenceField != null)
  }

  /** The field a dynamic row stands for: the same by id, and a row that links at all links to a loaded class. */
  ghost predicate OfRow(g: Graph, d: DynamicField, f: MetaField) {
    && f.id == d.id && f.code == d.code && f.kind == d.kind
    && f.owner != null && f.owner in g.objects && f.owner.id == d.contentId
    && f.owner.id in g.lists && f in g.lists[f.owner.id]
    && (if f.linkToMetaClass == null then d.linkToContent.None?
        else f.linkToMetaClass in g.objects && d.linkToContent == Some(f.linkToMetaClass.id))
    && (f.backReferenceField != null ==>
          && d.backReferenceField == Some(f.backReferenceField.id)
          && f.linkToMetaClass != null && f.linkToMetaClass.id in g.lists
          && f.backReferenceField in g.lists[f.linkToMetaClass.id])
    && (f.kind.BackReference? && f.linkToMetaClass != null && f.linkToMetaClass.id in g.lists ==>
          forall h | h in g.lists[f.linkToMetaClass.id] && !h.kind.BackReference? ::
            d.backReferenceField == Some(h.id) ==> f.backReferenceField != null)
  }

  lemma LinkedOfBuilder(g: Graph, s: StaticContent, b: FieldBuilder, f: MetaField)
    requires Linked(g, BuilderRecord(s, b), f)
    ensures OfBuilder(g, s, b, f)
  {
    var r := BuilderRecord(s, b);
    if f.kind.BackReference? && f.linkToMetaClass != null && f.linkToMetaClass.id in g.lists {
      forall h | h in g.lists[f.linkToMetaClass.id] && !h.kind.BackReference? && b.backReferenceField == Some(h.code)
        ensures f.backReferenceField != null
      {
        assert Targets(h, r.target.value);
      }
    }
  }

  function RowRecord(d: DynamicField): FieldRecord {
    DynamicRecords([d])[0]
  }

  lemma RecordHasRow(fields: seq<DynamicField>, r: FieldRecord) returns (d: DynamicField)
    requires r in DynamicRecords(fields)
    ensures d in fields && r == RowRecord(d)
  {
    var i :| 0 <= i < |fields| && DynamicRecords(fields)[i] == r;
    d := fields[i];
  }

  lemma LinkedOfRow(g: Graph, d: DynamicField, f: MetaField)
    requires Linked(g, RowRecord(d), f)
    ensures OfRow(g, d, f)
  {
    var r := RowRecord(d);
    if f.kind.BackReference? && f.linkToMetaClass != null && f.linkToMetaClass.id in g.lists {
      forall h | h in g.lists[f.linkToMetaClass.id] && !h.kind.BackReference? && d.backReferenceField == Some(h.id)
        ensures f.backReferenceField != null
      {
        assert Targets(h, r.target.value);
      }
    }
  }

  /** Every builder of a static content whose class is loaded has its field. */
  lemma BuilderHasField(g: Graph, loaders: seq<MetaLoader>, l: MetaLoader, s: StaticContent, b: FieldBuilder)
    returns (f: MetaField)
    requires IsGraphOf(g, loaders) && OneRowEach(AllClasses(loaders))
    requires l in loaders && l.StaticContentLoader? && s in l.statics && b in s.builders
    requires exists c | c in g.objects :: c.code == s.code
    ensures OfBuilder(g, s, b, f)
  {
    BuilderHasRecord(l.statics, s, b);
    AllFieldsHave(loaders, l, BuilderRecord(s, b));
    var c :| c in g.objects && c.code == s.code;
    assert Answers(c, ByCode(s.code));
    f := RecordHasField(g, loaders, BuilderRecord(s, b));
    LinkedOfBuilder(g, s, b, f);
  }

  /** Every row whose class is loaded, and its linked class when it has one, has its field. */
  lemma RowHasField(g: Graph, loaders: seq<MetaLoader>, l: MetaLoader, d: DynamicField) returns (f: MetaField)
    requires IsGraphOf(g, loaders) && OneRowEach(AllClasses(loaders))
    requires l in loaders && l.DynamicContentLoader? && d in l.fields
    requires d.contentId in g.byId && (d.linkToContent.Some? ==> d.linkToContent.value in g.byId)
    ensures OfRow(g, d, f)
  {
    var i :| 0 <= i < |l.fields| && l.fields[i] == d;
    assert FieldsOf(l)[i] == RowRecord(d);
    AllFieldsHave(loaders, l, RowRecord(d));
    assert Answers(g.byId[d.contentId], ById(d.contentId));
    if d.linkToContent.Some? {
      assert Answers(g.byId[d.linkToContent.value], ById(d.linkToContent.value));
    }
    f := RecordHasField(g, loaders, RowRecord(d));
    LinkedOfRow(g, d, f);
  }

  /** Some builder or row of the loaders stands for the field. */
  ghost predicate HasOrigin(g: Graph, loaders: seq<MetaLoader>, f: MetaField) {
    || (exists l, s, b | l in loaders && l.StaticContentLoader? && s in l.statics && b in s.builders ::
          OfBuilder(g, s, b, f))
    || (exists l, d | l in loaders && l.DynamicContentLoader? && d in l.fields :: OfRow(g, d, f))
  }

  /**
   * Every field of the graph is that of a builder or a row, in the list of the class the builder or row names;
   * so a row whose linked class is missing leaves no field.
   */
  lemma FieldHasOrigin(g: Graph, loaders: seq<MetaLoader>, cls: string, f: MetaField)
    requires IsGraphOf(g, loaders) && OneRowEach(AllClasses(loaders)) && cls in g.lists && f in g.lists[cls]
    ensures HasOrigin(g, loaders, f) && f.owner != null && f.owner.id == cls
  {
    var r := FieldHasRecord(g, loaders, cls, f);
    var l := AllFieldsFrom(loaders, r);
    if l.StaticContentLoader? {
      var s, b := RecordHasBuilder(l.statics, r);
      LinkedOfBuilder(g, s, b, f);
      assert OfBuilder(g, s, b, f);
    } else {
      var d := RecordHasRow(l.fields, r);
      LinkedOfRow(g, d, f);
      assert OfRow(g, d, f);
    }
  }

  // ---------------------------------------------------------------- how often

  function BuilderIds(statics: seq<StaticContent>): seq<string> {
    if statics == [] then []
    else
      var builders := statics[0].builders;
      seq(|builders|, i requires 0 <= i < |builders| => builders[i].id) + BuilderIds(statics[1..])
  }

  /** The ids of the rows or builders a loader walks, one for each. */
  function ReadIds(l: MetaLoader): seq<string> {
    match l
    case DynamicContentLoader(_, _, fields) => seq(|fields|, i requires 0 <= i < |fields| => fields[i].id)
    case StaticContentLoader(statics) => BuilderIds(statics)
  }

  function AllReadIds(loaders: seq<MetaLoader>): seq<string> {
    if loaders == [] then [] else AllReadIds(loaders[..|loaders| - 1]) + ReadIds(loaders[|loaders| - 1])
  }

  function FieldIds(fields: seq<MetaField>): (ids: seq<string>)
    ensures |ids| == |fields| && forall i | 0 <= i < |fields| :: ids[i] == fields[i].id
  {
    seq(|fields|, i requires 0 <= i < |fields| => fields[i].id)
  }

  function RecordIds(records: seq<FieldRecord>): (ids: seq<string>)
    ensures |ids| == |records| && forall i | 0 <= i < |records| :: ids[i] == records[i].id
  {
    seq(|records|, i requires 0 <= i < |records| => records[i].id)
  }

  lemma RecordIdsConcat(a: seq<FieldRecord>, b: seq<FieldRecord>)
    ensures RecordIds(a + b) == RecordIds(a) + RecordIds(b)
  {}

  lemma OneBuilderEach(code: string, builders: seq<FieldBuilder>)
    ensures RecordIds(BuilderRecords(code, builders)) ==
            seq(|builders|, i requires 0 <= i < |builders| => builders[i].id)
  {}

  lemma {:induction false} BuilderIdsAreRead(statics: seq<StaticContent>)
    ensures RecordIds(StaticRecords(statics)) == BuilderIds(statics)
  {
    if statics != [] {
      BuilderIdsAreRead(statics[1..]);
      OneBuilderEach(statics[0].code, statics[0].builders);
      RecordIdsConcat(BuilderRecords(statics[0].code, statics[0].builders), StaticRecords(statics[1..]));
    }
  }

  lemma LoaderIdsAreRead(l: MetaLoader)
    ensures RecordIds(FieldsOf(l)) == ReadIds(l)
  {
    if l.StaticContentLoader? {
      BuilderIdsAreRead(l.statics);
    }
  }

  lemma {:induction false} AllIdsAreRead(loaders: seq<MetaLoader>)
    ensures RecordIds(AllFields(loaders)) == AllReadIds(loaders)
  {
    if loaders != [] {
      var front, last := loaders[..|loaders| - 1], loaders[|loaders| - 1];
      AllIdsAreRead(front);
      LoaderIdsAreRead(last);
      RecordIdsConcat(AllFields(front), FieldsOf(last));
    }
  }

  lemma RecordIdsGrow(front: seq<FieldRecord>, r: FieldRecord, id: string)
    ensures multiset(RecordIds(front + [r]))[id] == multiset(RecordIds(front))[id] + if r.id == id then 1 else 0
  {
    assert RecordIds(front + [r]) == RecordIds(front) + [r.id];
  }

  /** Both passes together take no more records with an id than there are. */
  lemma {:induction false} PassesTakeOnce(classes: seq<ClassRecord>, fields: seq<FieldRecord>, cls: string, id: string)
    ensures multiset(RecordIds(Own(classes, fields, cls, false)))[id]
            + multiset(RecordIds(Own(classes, fields, cls, true)))[id] <= multiset(RecordIds(fields))[id]
  {
    if fields != [] {
      var front, r := fields[..|fields| - 1], fields[|fields| - 1];
      assert fields == front + [r];
      PassesTakeOnce(classes, front, cls, id);
      RecordIdsGrow(front, r, id);
      RecordIdsGrow(Own(classes, front, cls, false), r, id);
      RecordIdsGrow(Own(classes, front, cls, true), r, id);
    }
  }

  /**
   * Although every loader is asked twice, a class lists an id no more often than rows and builders with
   * the id were read: where those are distinct, no field is listed twice.
   */
  lemma ListedAtMostAsRead(g: Graph, loaders: seq<MetaLoader>, cls: string, id: string)
    requires IsGraphOf(g, loaders) && cls in g.lists
    ensures multiset(FieldIds(g.lists[cls]))[id] <= multiset(AllReadIds(loaders))[id]
  {
    var classes, fields := AllClasses(loaders), AllFields(loaders);
    AllIdsAreRead(loaders);
    PassesTakeOnce(classes, fields, cls, id);
    FinalIds(classes, loaders, cls);
    ListIdsMirror(g.lists[cls], Final(classes, loaders, cls));
  }

  lemma FinalIds(classes: seq<ClassRecord>, loaders: seq<MetaLoader>, cls: string)
    ensures RecordIds(Final(classes, loaders, cls)) ==
            RecordIds(Own(classes, AllFields(loaders), cls, false))
            + RecordIds(Own(classes, AllFields(loaders), cls, true))
  {
    assert loaders[..|loaders|] == loaders;
    RecordIdsConcat(Own(classes, AllFields(loaders), cls, false), Own(classes, AllFields(loaders), cls, true));
  }

  lemma ListIdsMirror(fields: seq<MetaField>, records: seq<FieldRecord>)
    requires Mirrors(fields, records)
    ensures FieldIds(fields) == RecordIds(records)
  {}
}
