/**
 * What the meta loaders read, and the class/field graph an initialisation makes of it, described
 * record by record: which class owns a field, which class it links to, and which field its back
 * reference resolves to at the moment its loader runs.
 */
module MetaRecords {
  import opened Wrappers
  import opened Meta

  // ---------------------------------------------------------------- loaders

  /** Dynamic content refers to classes and fields by id, static content by code. */
  datatype Ref = ById(id: string) | ByCode(code: string)

  datatype ClassRecord = ClassRecord(id: string, code: string, table: string, dataSource: string)

  /** `required` marks the dynamic rows: one whose linked class is missing is skipped. */
  datatype FieldRecord = FieldRecord(
    id: string,
    owner: Ref,
    code: string,
    kind: FieldType,
    link: Option<Ref>,
    target: Option<Ref>,
    required: bool)

  datatype DynamicField = DynamicField(
    id: string,
    contentId: string,
    code: string,
    kind: FieldType,
    linkToContent: Option<string>,
    backReferenceField: Option<string>)

  /** A field builder of static content, with the id its insert-if-missing lookup yields. */
  datatype FieldBuilder = FieldBuilder(
    id: string,
    code: string,
    kind: FieldType,
    linkToMetaClass: Option<string>,
    backReferenceField: Option<string>)

  datatype StaticContent = StaticContent(id: string, code: string, table: string, dataSource: string,
                                         builders: seq<FieldBuilder>)

  datatype MetaLoader =
    | DynamicContentLoader(dataSource: string, contents: seq<(string, string, string)>, fields: seq<DynamicField>)
    | StaticContentLoader(statics: seq<StaticContent>)

  function RefById(id: Option<string>): Option<Ref> {
    if id.None? then None else Some(ById(id.value))
  }

  function RefByCode(code: Option<string>): Option<Ref> {
    if code.None? then None else Some(ByCode(code.value))
  }

  function DynamicRecords(fields: seq<DynamicField>): seq<FieldRecord> {
    seq(|fields|, i requires 0 <= i < |fields| =>
      var f := fields[i];
      FieldRecord(f.id, ById(f.contentId), f.code, f.kind, RefById(f.linkToContent),
                  if f.linkToContent.None? then None else RefById(f.backReferenceField), true))
  }

  function BuilderRecords(code: string, builders: seq<FieldBuilder>): seq<FieldRecord> {
    seq(|builders|, i requires 0 <= i < |builders| =>
      var b := builders[i];
      FieldRecord(b.id, ByCode(code), b.code, b.kind, RefByCode(b.linkToMetaClass), RefByCode(b.backReferenceField),
                  false))
  }

  function StaticRecords(statics: seq<StaticContent>): seq<FieldRecord> {
    if statics == [] then []
    else BuilderRecords(statics[0].code, statics[0].builders) + StaticRecords(statics[1..])
  }

  /** A hash map keyed by class id: a class put again stays the object it was and gets the new data source. */
  function PutClass(classes: seq<ClassRecord>, r: ClassRecord): seq<ClassRecord> {
    if classes == [] then [r]
    else if classes[0].id == r.id then [classes[0].(dataSource := r.dataSource)] + classes[1..]
    else [classes[0]] + PutClass(classes[1..], r)
  }

  function PutClasses(records: seq<ClassRecord>): seq<ClassRecord> {
    if records == [] then [] else PutClass(PutClasses(records[..|records| - 1]), records[|records| - 1])
  }

  function ClassIds(classes: seq<ClassRecord>): set<string> {
    set c | c in classes :: c.id
  }

  lemma {:induction false} PutClassKeepsIds(classes: seq<ClassRecord>, r: ClassRecord)
    requires forall i, j | 0 <= i < j < |classes| :: classes[i].id != classes[j].id
    ensures var after := PutClass(classes, r);
            && (forall i, j | 0 <= i < j < |after| :: after[i].id != after[j].id)
            && ClassIds(after) == ClassIds(classes) + {r.id}
  {
    if classes != [] {
      var rest := classes[1..];
      assert classes == [classes[0]] + rest;
      if classes[0].id != r.id {
        NotAmongRest(classes);
        PutClassKeepsIds(rest, r);
        ConsKeepsIds(classes[0], PutClass(rest, r));
        assert ClassIds(classes) == {classes[0].id} + ClassIds(rest);
      } else {
        ReplaceKeepsIds(classes, classes[0].(dataSource := r.dataSource));
      }
    }
  }

  lemma NotAmongRest(classes: seq<ClassRecord>)
    requires classes != [] && forall i, j | 0 <= i < j < |classes| :: classes[i].id != classes[j].id
    ensures classes[0].id !in ClassIds(classes[1..])
  {
    forall c | c in classes[1..] ensures c.id != classes[0].id {
      var k :| 0 <= k < |classes[1..]| && classes[1..][k] == c;
      assert classes[k + 1] == c;
    }
  }

  lemma ReplaceKeepsIds(classes: seq<ClassRecord>, c: ClassRecord)
    requires classes != [] && classes[0].id == c.id
    requires forall i, j | 0 <= i < j < |classes| :: classes[i].id != classes[j].id
    ensures var after := [c] + classes[1..];
            && (forall i, j | 0 <= i < j < |after| :: after[i].id != after[j].id)
            && ClassIds(after) == ClassIds(classes)
  {
    NotAmongRest(classes);
    ConsKeepsIds(c, classes[1..]);
    assert classes == [classes[0]] + classes[1..];
    ConsKeepsIds(classes[0], classes[1..]);
  }

  lemma ConsKeepsIds(c: ClassRecord, rest: seq<ClassRecord>)
    requires c.id !in ClassIds(rest) && forall i, j | 0 <= i < j < |rest| :: rest[i].id != rest[j].id
    ensures forall i, j | 0 <= i < j < |[c] + rest| :: ([c] + rest)[i].id != ([c] + rest)[j].id
    ensures ClassIds([c] + rest) == {c.id} + ClassIds(rest)
  {
    forall j | 0 <= j < |rest| ensures rest[j].id != c.id {
      assert rest[j] in rest;
    }
  }

  /** A loader yields each class id it reads, once. */
  lemma {:induction false} LoadedOnce(records: seq<ClassRecord>)
    ensures forall i, j | 0 <= i < j < |PutClasses(records)| :: PutClasses(records)[i].id != PutClasses(records)[j].id
    ensures ClassIds(PutClasses(records)) == ClassIds(records)
  {
    if records != [] {
      var front, last := records[..|records| - 1], records[|records| - 1];
      assert records == front + [last];
      LoadedOnce(front);
      PutClassKeepsIds(PutClasses(front), last);
    }
  }

  function ClassRows(loader: MetaLoader): seq<ClassRecord> {
    match loader
    case DynamicContentLoader(source, contents, _) =>
      seq(|contents|, i requires 0 <= i < |contents| =>
        ClassRecord(contents[i].0, contents[i].1, contents[i].2, source))
    case StaticContentLoader(statics) =>
      seq(|statics|, i requires 0 <= i < |statics| =>
        ClassRecord(statics[i].id, statics[i].code, statics[i].table, statics[i].dataSource))
  }

  /** `loadClasses`. */
  function ClassesOf(loader: MetaLoader): seq<ClassRecord> {
    PutClasses(ClassRows(loader))
  }

  /** The rows and builders `loadFields` walks. */
  function FieldsOf(loader: MetaLoader): seq<FieldRecord> {
    match loader
    case DynamicContentLoader(_, _, fields) => DynamicRecords(fields)
    case StaticContentLoader(statics) => StaticRecords(statics)
  }

  function AllClasses(loaders: seq<MetaLoader>): seq<ClassRecord> {
    if loaders == [] then [] else AllClasses(loaders[..|loaders| - 1]) + ClassesOf(loaders[|loaders| - 1])
  }

  function AllFields(loaders: seq<MetaLoader>): seq<FieldRecord> {
    if loaders == [] then [] else AllFields(loaders[..|loaders| - 1]) + FieldsOf(loaders[|loaders| - 1])
  }

  // ---------------------------------------------------------------- resolving references

  predicate Names(c: ClassRecord, ref: Ref) {
    match ref
    case ById(id) => c.id == id
    case ByCode(code) => c.code == code
  }

  /** The id of the class a reference names; of several, the one loaded last. */
  function Resolve(classes: seq<ClassRecord>, ref: Ref): Option<string> {
    if classes == [] then None
    else
      var last := classes[|classes| - 1];
      if Names(last, ref) then Some(last.id) else Resolve(classes[..|classes| - 1], ref)
  }

  function ResolveLink(classes: seq<ClassRecord>, r: FieldRecord): Option<string> {
    if r.link.None? then None else Resolve(classes, r.link.value)
  }

  /** A loaded field: its required linked class exists. */
  predicate Loaded(classes: seq<ClassRecord>, r: FieldRecord) {
    r.required && r.link.Some? ==> ResolveLink(classes, r).Some?
  }

  predicate OwnedBy(classes: seq<ClassRecord>, r: FieldRecord, cls: string) {
    Loaded(classes, r) && Resolve(classes, r.owner) == Some(cls)
  }

  /** The first pass adds everything but back references, the second pass the back references. */
  predicate InPass(r: FieldRecord, second: bool) {
    r.kind.BackReference? <==> second
  }

  /** The records a pass adds to a class, in the order they are walked. */
  function Own(classes: seq<ClassRecord>, fields: seq<FieldRecord>, cls: string, second: bool): seq<FieldRecord> {
    if fields == [] then []
    else
      var front, r := Own(classes, fields[..|fields| - 1], cls, second), fields[|fields| - 1];
      if OwnedBy(classes, r, cls) && InPass(r, second) then front + [r] else front
  }

  /** The fields of a class as the loader at position `i` sees them during a pass. */
  function Seen(classes: seq<ClassRecord>, loaders: seq<MetaLoader>, i: nat, cls: string,
                second: bool): seq<FieldRecord>
    requires i <= |loaders|
  {
    (if second then Own(classes, AllFields(loaders), cls, false) else [])
    + Own(classes, AllFields(loaders[..i]), cls, second)
  }

  /** The fields of a class when the initialisation is done. */
  function Final(classes: seq<ClassRecord>, loaders: seq<MetaLoader>, cls: string): seq<FieldRecord> {
    Seen(classes, loaders, |loaders|, cls, true)
  }

  predicate IsTarget(r: FieldRecord, target: Ref) {
    match target
    case ById(id) => r.id == id
    case ByCode(code) => r.code == code
  }

  function FirstIndex(fields: seq<FieldRecord>, target: Ref): Option<nat> {
    if fields == [] then None
    else if IsTarget(fields[0], target) then Some(0)
    else match FirstIndex(fields[1..], target)
      case None => None
      case Some(k) => Some(k + 1)
  }

  function LastIndex(fields: seq<FieldRecord>, target: Ref): Option<nat> {
    if fields == [] then None
    else if IsTarget(fields[|fields| - 1], target) then Some(|fields| - 1)
    else LastIndex(fields[..|fields| - 1], target)
  }

  /** By id the stream's first match, by code what the by-code map holds: the last one added. */
  function FindTarget(fields: seq<FieldRecord>, target: Ref): (k: Option<nat>)
    ensures k.Some? ==> k.value < |fields| && IsTarget(fields[k.value], target)
    ensures k.None? <==> forall r | r in fields :: !IsTarget(r, target)
  {
    if target.ById? then
      FirstIndexFinds(fields, target);
      FirstIndex(fields, target)
    else
      LastIndexFinds(fields, target);
      LastIndex(fields, target)
  }

  lemma {:induction false} FirstIndexFinds(fields: seq<FieldRecord>, target: Ref)
    ensures var k := FirstIndex(fields, target);
            && (k.Some? ==> k.value < |fields| && IsTarget(fields[k.value], target))
            && (k.None? <==> forall r | r in fields :: !IsTarget(r, target))
  {
    if fields != [] {
      FirstIndexFinds(fields[1..], target);
      assert fields == [fields[0]] + fields[1..];
    }
  }

  lemma {:induction false} LastIndexFinds(fields: seq<FieldRecord>, target: Ref)
    ensures var k := LastIndex(fields, target);
            && (k.Some? ==> k.value < |fields| && IsTarget(fields[k.value], target))
            && (k.None? <==> forall r | r in fields :: !IsTarget(r, target))
  {
    if fields != [] {
      LastIndexFinds(fields[..|fields| - 1], target);
      assert fields == fields[..|fields| - 1] + [fields[|fields| - 1]];
    }
  }

  /** Where the back reference of a record of loader `i` points: a position in the linked class's fields. */
  function TargetIndex(classes: seq<ClassRecord>, loaders: seq<MetaLoader>, i: nat, r: FieldRecord,
                       second: bool): (k: Option<nat>)
    requires i <= |loaders|
    ensures k.Some? ==>
              ResolveLink(classes, r).Some?
              && k.value < |Seen(classes, loaders, i, ResolveLink(classes, r).value, second)|
  {
    var link := ResolveLink(classes, r);
    if link.None? || r.target.None? then None
    else FindTarget(Seen(classes, loaders, i, link.value, second), r.target.value)
  }
}
