/**
 * The two-pass initialisation over class and field objects: fields first, back references second,
 * each pass asking every loader again.
 */
module MetaInitializer {
  import opened Wrappers
  import opened Meta
  import opened MetaRecords
  import opened MetaObjects
  import opened MetaStorage
  import opened DataSources

  type ClassesById = map<string, MetaClass>

  /** The field list of every class. */
  type Lists = map<string, seq<MetaField>>

  // ---------------------------------------------------------------- what the objects should be

  /** The field lists of all classes at one moment. */
  ghost function FieldLists(byId: ClassesById): Lists
    reads byId.Values
  {
    map id | id in byId :: byId[id].fields
  }

  function ObjectOf(byId: ClassesById, id: Option<string>): MetaClass? {
    if id.Some? && id.value in byId then byId[id.value] else null
  }

  /** The field object at a position of a class's list. */
  ghost function FieldAt(lists: Lists, cls: Option<string>, k: Option<nat>): MetaField? {
    if cls.Some? && cls.value in lists && k.Some? && k.value < |lists[cls.value]|
    then lists[cls.value][k.value]
    else null
  }

  /** A record together with the position of the loader it came from. */
  datatype Source = Source(r: FieldRecord, loader: nat)

  ghost function OwnSources(classes: seq<ClassRecord>, loaders: seq<MetaLoader>, n: nat, cls: string,
                            second: bool): seq<Source>
    requires n <= |loaders|
  {
    if n == 0 then []
    else
      OwnSources(classes, loaders, n - 1, cls, second) + From(Own(classes, FieldsOf(loaders[n - 1]), cls, second),
                                                              n - 1)
  }

  function From(records: seq<FieldRecord>, loader: nat): (s: seq<Source>)
    ensures |s| == |records|
    ensures forall j | 0 <= j < |records| :: s[j] == Source(records[j], loader)
  {
    seq(|records|, j requires 0 <= j < |records| => Source(records[j], loader))
  }

  /** One field object is what its record asks for, its back reference resolved when its loader ran. */
  ghost predicate IsBuilt(byId: ClassesById, lists: Lists, classes: seq<ClassRecord>,
                          loaders: seq<MetaLoader>, f: MetaField, cls: string, s: Source, second: bool)
  {
    && s.loader <= |loaders|
    && IsRecord(f, s.r)
    && f.owner == ObjectOf(byId, Some(cls))
    && f.linkToMetaClass == ObjectOf(byId, ResolveLink(classes, s.r))
    && var k := TargetIndex(classes, loaders, s.loader, s.r, second);
       f.backReferenceField == FieldAt(lists, ResolveLink(classes, s.r), k)
       && (k.Some? <==> f.backReferenceField != null)
  }

  ghost predicate AllBuilt(byId: ClassesById, lists: Lists, classes: seq<ClassRecord>,
                           loaders: seq<MetaLoader>, fields: seq<MetaField>, cls: string, sources: seq<Source>,
                           second: bool)
  {
    && |fields| == |sources|
    && forall j {:trigger IsBuilt(byId, lists, classes, loaders, fields[j], cls, sources[j], second)}
         | 0 <= j < |fields| ::
         IsBuilt(byId, lists, classes, loaders, fields[j], cls, sources[j], second)
  }

  lemma {:induction false} OwnConcat(classes: seq<ClassRecord>, a: seq<FieldRecord>, b: seq<FieldRecord>, cls: string,
                                     second: bool)
    ensures Own(classes, a + b, cls, second) == Own(classes, a, cls, second) + Own(classes, b, cls, second)
  {
    if b == [] {
      assert a + b == a;
    } else {
      var front := b[..|b| - 1];
      assert (a + b)[..|a + b| - 1] == a + front;
      OwnConcat(classes, a, front, cls, second);
    }
  }

  function Records(sources: seq<Source>): (r: seq<FieldRecord>)
    ensures |r| == |sources|
    ensures forall j | 0 <= j < |sources| :: r[j] == sources[j].r
  {
    seq(|sources|, j requires 0 <= j < |sources| => sources[j].r)
  }

  lemma RecordsOfFrom(sources: seq<Source>, own: seq<FieldRecord>, loader: nat)
    ensures Records(sources + From(own, loader)) == Records(sources) + own
  {}

  /** The sources are the records of the pass, in the order the loaders are walked. */
  lemma {:induction false} OwnSourcesAreOwn(classes: seq<ClassRecord>, loaders: seq<MetaLoader>, n: nat, cls: string,
                                            second: bool)
    requires n <= |loaders|
    ensures Records(OwnSources(classes, loaders, n, cls, second)) == Own(classes, AllFields(loaders[..n]), cls, second)
  {
    if n > 0 {
      var front, last := AllFields(loaders[..n - 1]), FieldsOf(loaders[n - 1]);
      assert loaders[..n][..n - 1] == loaders[..n - 1];
      assert AllFields(loaders[..n]) == front + last;
      OwnSourcesAreOwn(classes, loaders, n - 1, cls, second);
      OwnConcat(classes, front, last, cls, second);
      RecordsOfFrom(OwnSources(classes, loaders, n - 1, cls, second), Own(classes, last, cls, second), n - 1);
    }
  }

  /** Field lists only grow at the end. */
  ghost predicate Extends(lists: Lists, more: Lists) {
    lists.Keys == more.Keys && forall c | c in lists :: lists[c] <= more[c]
  }

  /** What a back reference points to stays where it is while lists grow. */
  lemma BuiltStays(byId: ClassesById, lists: Lists, more: Lists,
                   classes: seq<ClassRecord>, loaders: seq<MetaLoader>, fields: seq<MetaField>,
                   cls: string, sources: seq<Source>, second: bool)
    requires Extends(lists, more) && AllBuilt(byId, lists, classes, loaders, fields, cls, sources, second)
    ensures AllBuilt(byId, more, classes, loaders, fields, cls, sources, second)
  {
    forall j | 0 <= j < |fields| ensures IsBuilt(byId, more, classes, loaders, fields[j], cls, sources[j], second) {
      assert IsBuilt(byId, lists, classes, loaders, fields[j], cls, sources[j], second);
    }
  }

  // ---------------------------------------------------------------- looking up a target

  /** The list holds these records, in this order. */
  predicate Mirrors(fields: seq<MetaField>, records: seq<FieldRecord>) {
    |fields| == |records| && forall j | 0 <= j < |fields| :: IsRecord(fields[j], records[j])
  }

  lemma {:induction false} FirstByIdMirrors(fields: seq<MetaField>, records: seq<FieldRecord>, id: string)
    requires Mirrors(fields, records)
    ensures FirstById(fields, id) ==
            match FirstIndex(records,
                             ById(id)) case None => null case Some(k) => if k < |fields| then fields[k] else null
  {
    FirstIndexFinds(records, ById(id));
    if fields != [] {
      FirstByIdMirrors(fields[1..], records[1..], id);
      FirstIndexFinds(records[1..], ById(id));
    }
  }

  lemma {:induction false} LastByCodeMirrors(fields: seq<MetaField>, records: seq<FieldRecord>, code: string)
    requires Mirrors(fields, records)
    ensures LastByCode(fields, code) ==
            match LastIndex(records,
                            ByCode(code)) case None => null case Some(k) => if k < |fields| then fields[k] else null
  {
    LastIndexFinds(records, ByCode(code));
    if fields != [] {
      LastByCodeMirrors(fields[..|fields| - 1], records[..|records| - 1], code);
      LastIndexFinds(records[..|records| - 1], ByCode(code));
    }
  }

  /** The back reference of a dynamic row by id, of a field builder by code. */
  method FindBackReference(link: MetaClass?, target: Option<Ref>) returns (f: MetaField?)
    requires link != null ==> link.InStep()
    ensures f == if link == null || target.None? then null
                 else match target.value
                   case ById(id) => FirstById(link.fields, id)
                   case ByCode(code) => LastByCode(link.fields, code)
  {
    f := null;
    if link != null && target.Some? {
      match target.value {
        case ById(id) =>
          for i := 0 to |link.fields|
            invariant FirstById(link.fields, id) == FirstById(link.fields[i..], id)
          {
            if link.fields[i].id == id {
              return link.fields[i];
            }
          }
        case ByCode(code) =>
          f := link.GetField(code);
      }
    }
  }

  // ---------------------------------------------------------------- loading fields

  ghost predicate AllInStep(byId: ClassesById)
    reads byId.Values
  {
    forall id | id in byId :: byId[id].InStep()
  }

  function ObjectFor(byId: ClassesById, byCode: map<string, MetaClass>, ref: Ref): MetaClass? {
    match ref
    case ById(id) => if id in byId then byId[id] else null
    case ByCode(code) => if code in byCode then byCode[code] else null
  }

  ghost predicate Injective(byId: ClassesById) {
    forall id, other | id in byId && other in byId && byId[id] == byId[other] :: id == other
  }

  /** The two class maps answer every reference as the records do. */
  ghost predicate Indexed(byId: ClassesById, byCode: map<string, MetaClass>, classes: seq<ClassRecord>) {
    && (forall ref :: ObjectFor(byId, byCode, ref) == ObjectOf(byId, Resolve(classes, ref)))
    && (forall ref :: Resolve(classes, ref).Some? ==> Resolve(classes, ref).value in byId)
    && Injective(byId)
  }

  function LoadedOnly(classes: seq<ClassRecord>, records: seq<FieldRecord>): seq<FieldRecord> {
    if records == [] then []
    else
      var front, r := LoadedOnly(classes, records[..|records| - 1]), records[|records| - 1];
      if Loaded(classes, r) then front + [r] else front
  }

  lemma {:induction false} OwnOfLoaded(classes: seq<ClassRecord>, records: seq<FieldRecord>, cls: string, second: bool)
    ensures Own(classes, LoadedOnly(classes, records), cls, second) == Own(classes, records, cls, second)
  {
    if records != [] {
      var front, r := records[..|records| - 1], records[|records| - 1];
      OwnOfLoaded(classes, front, cls, second);
      if Loaded(classes, r) {
        assert LoadedOnly(classes, records)[..|LoadedOnly(classes, front)|] == LoadedOnly(classes, front);
      }
    }
  }

  /** A field object as `loadFields` makes it while the classes hold the given lists. */
  ghost predicate Made(byId: ClassesById, lists: Lists, classes: seq<ClassRecord>, loaders: seq<MetaLoader>,
                       f: MetaField, r: FieldRecord, i: nat, second: bool)
    requires i <= |loaders|
  {
    && f.owner == ObjectOf(byId, Resolve(classes, r.owner))
    && (f.owner != null ==>
          IsBuilt(byId, lists, classes, loaders, f, Resolve(classes, r.owner).value, Source(r, i), second))
    && f.kind == r.kind
  }

  /** The classes hold exactly what a loader at position `i` of the pass should see. */
  ghost predicate Stage(byId: ClassesById, lists: Lists, classes: seq<ClassRecord>,
                        loaders: seq<MetaLoader>, i: nat, second: bool)
    requires i <= |loaders|
  {
    lists.Keys == byId.Keys && forall c | c in lists :: Mirrors(lists[c], Seen(classes, loaders, i, c, second))
  }

  lemma TargetMirrors(byId: ClassesById, lists: Lists, classes: seq<ClassRecord>, loaders: seq<MetaLoader>,
                      i: nat, r: FieldRecord, second: bool, linked: MetaClass?, f: MetaField?)
    requires i <= |loaders| && Stage(byId, lists, classes, loaders, i, second)
    requires ResolveLink(classes, r).Some? ==> ResolveLink(classes, r).value in byId
    requires linked == ObjectOf(byId, ResolveLink(classes, r))
    requires f == if linked == null || r.target.None? then null
                  else match r.target.value
                    case ById(id) => FirstById(lists[ResolveLink(classes, r).value], id)
                    case ByCode(code) => LastByCode(lists[ResolveLink(classes, r).value], code)
    ensures var k := TargetIndex(classes, loaders, i, r, second);
            f == FieldAt(lists, ResolveLink(classes, r), k) && (k.Some? <==> f != null)
  {
    var link := ResolveLink(classes, r);
    if link.Some? && r.target.Some? {
      var seen := Seen(classes, loaders, i, link.value, second);
      match r.target.value {
        case ById(id) => FirstByIdMirrors(lists[link.value], seen, id); FirstIndexFinds(seen, ById(id));
        case ByCode(code) => LastByCodeMirrors(lists[link.value], seen, code); LastIndexFinds(seen, ByCode(code));
      }
    }
  }

  /** One row or builder; a dynamic row whose linked class is missing yields nothing. */
  method BuildField(r: FieldRecord, byId: ClassesById, byCode: map<string, MetaClass>, ghost lists: Lists,
                    ghost classes: seq<ClassRecord>, ghost loaders: seq<MetaLoader>, ghost i: nat, ghost second: bool)
    returns (result: Option<MetaField>)
    requires i <= |loaders| && lists == FieldLists(byId) && AllInStep(byId)
    requires Indexed(byId, byCode, classes) && Stage(byId, lists, classes, loaders, i, second)
    ensures result.Some? <==> Loaded(classes, r)
    ensures result.Some? ==> Made(byId, lists, classes, loaders, result.value, r, i, second)
  {
    var linked := if r.link.None? then null else ObjectFor(byId, byCode, r.link.value);
    assert linked == ObjectOf(byId, ResolveLink(classes, r));
    if r.required && r.link.Some? && linked == null {
      return None;
    }
    var backReference := FindBackReference(linked, r.target);
    TargetMirrors(byId, lists, classes, loaders, i, r, second, linked, backReference);
    var field := new MetaField(r, ObjectFor(byId, byCode, r.owner), linked, backReference);
    result := Some(field);
  }

  /** Fields of a loader, record by record: those not skipped, each as its record asks. */
  ghost predicate AllMade(byId: ClassesById, lists: Lists, classes: seq<ClassRecord>, loaders: seq<MetaLoader>,
                          fields: seq<MetaField>, kept: seq<FieldRecord>, i: nat, second: bool)
    requires i <= |loaders|
  {
    |fields| == |kept| && forall k | 0 <= k < |kept| ::
      Made(byId, lists, classes, loaders, fields[k], kept[k], i, second)
  }

  lemma NextMade(byId: ClassesById, lists: Lists, classes: seq<ClassRecord>, loaders: seq<MetaLoader>,
                 fields: seq<MetaField>, records: seq<FieldRecord>, n: nat, field: Option<MetaField>, i: nat,
                 second: bool)
    requires i <= |loaders| && n < |records|
    requires AllMade(byId, lists, classes, loaders, fields, LoadedOnly(classes, records[..n]), i, second)
    requires field.Some? <==> Loaded(classes, records[n])
    requires field.Some? ==> Made(byId, lists, classes, loaders, field.value, records[n], i, second)
    ensures AllMade(byId, lists, classes, loaders, if field.Some? then fields + [field.value] else fields,
                    LoadedOnly(classes, records[..n + 1]), i, second)
  {
    assert records[..n + 1][..n] == records[..n];
  }

  method LoadFields(loader: MetaLoader, byId: ClassesById, byCode: map<string, MetaClass>, ghost lists: Lists,
                    ghost classes: seq<ClassRecord>, ghost loaders: seq<MetaLoader>, ghost i: nat, ghost second: bool)
    returns (result: seq<MetaField>)
    requires i <= |loaders| && lists == FieldLists(byId) && AllInStep(byId)
    requires Indexed(byId, byCode, classes) && Stage(byId, lists, classes, loaders, i, second)
    ensures AllMade(byId, lists, classes, loaders, result, LoadedOnly(classes, FieldsOf(loader)), i, second)
  {
    var records := FieldsOf(loader);
    result := [];
    for n := 0 to |records|
      invariant AllMade(byId, lists, classes, loaders, result, LoadedOnly(classes, records[..n]), i, second)
    {
      var field := BuildField(records[n], byId, byCode, lists, classes, loaders, i, second);
      NextMade(byId, lists, classes, loaders, result, records, n, field, i, second);
      if field.Some? {
        result := result + [field.value];
      }
    }
    assert records[..|records|] == records;
  }

  // ---------------------------------------------------------------- one pass

  predicate Joins(f: MetaField, c: MetaClass, second: bool) {
    f.owner == c && (f.kind.BackReference? <==> second)
  }

  /** The fields of a loader that a pass adds to one class. */
  function Added(fields: seq<MetaField>, c: MetaClass, second: bool): seq<MetaField> {
    if fields == [] then []
    else
      var front, f := Added(fields[..|fields| - 1], c, second), fields[|fields| - 1];
      if Joins(f, c, second) then front + [f] else front
  }

  method AddFields(fields: seq<MetaField>, ghost byId: ClassesById, second: bool)
    requires Injective(byId) && AllInStep(byId)
    requires forall f | f in fields && f.owner != null :: f.owner in byId.Values
    modifies byId.Values
    ensures AllInStep(byId)
    ensures forall id | id in byId :: byId[id].fields == old(byId[id].fields) + Added(fields, byId[id], second)
  {
    for k := 0 to |fields|
      invariant AllInStep(byId)
      invariant forall id | id in byId :: byId[id].fields == old(byId[id].fields) + Added(fields[..k], byId[id], second)
    {
      var field := fields[k];
      assert fields[..k + 1][..k] == fields[..k];
      if (if second then field.kind.BackReference? else !field.kind.BackReference?) && field.owner != null {
        field.owner.AddField(field);
      }
    }
    assert fields[..|fields|] == fields;
  }

  /** What a pass adds to a class is what its records say, each built as they ask. */
  lemma {:induction false} AddedAreBuilt(byId: ClassesById, lists: Lists, classes: seq<ClassRecord>,
                                         loaders: seq<MetaLoader>, result: seq<MetaField>, kept: seq<FieldRecord>,
                                         i: nat, cls: string, second: bool)
    requires i <= |loaders| && cls in byId && Injective(byId)
    requires forall ref :: Resolve(classes, ref).Some? ==> Resolve(classes, ref).value in byId
    requires AllMade(byId, lists, classes, loaders, result, kept, i, second)
    requires forall k | 0 <= k < |kept| :: Loaded(classes, kept[k])
    ensures AllBuilt(byId, lists, classes, loaders, Added(result, byId[cls], second), cls,
                     From(Own(classes, kept, cls, second), i), second)
  {
    if kept != [] {
      var n := |kept| - 1;
      AddedAreBuilt(byId, lists, classes, loaders, result[..n], kept[..n], i, cls, second);
      assert Made(byId, lists, classes, loaders, result[n], kept[n], i, second);
    }
  }

  lemma {:induction false} LoadedOnlyLoaded(classes: seq<ClassRecord>, records: seq<FieldRecord>)
    ensures forall r | r in LoadedOnly(classes, records) :: Loaded(classes, r)
  {
    if records != [] {
      LoadedOnlyLoaded(classes, records[..|records| - 1]);
    }
  }

  /** After `n` loaders of a pass: the old lists, and behind them the pass's fields as built. */
  ghost predicate AfterLoaders(byId: ClassesById, base: Lists, lists: Lists,
                               classes: seq<ClassRecord>, loaders: seq<MetaLoader>, n: nat, second: bool)
    requires n <= |loaders|
  {
    && base.Keys == byId.Keys
    && Extends(base, lists)
    && forall c | c in byId ::
         AllBuilt(byId, lists, classes, loaders, lists[c][|base[c]|..], c, OwnSources(classes, loaders, n, c, second),
                  second)
  }

  lemma BuiltConcat(byId: ClassesById, lists: Lists, classes: seq<ClassRecord>, loaders: seq<MetaLoader>, c: string,
                    fields: seq<MetaField>, sources: seq<Source>, fields': seq<MetaField>, sources': seq<Source>,
                    second: bool)
    requires AllBuilt(byId, lists, classes, loaders, fields, c, sources, second)
    requires AllBuilt(byId, lists, classes, loaders, fields', c, sources', second)
    ensures AllBuilt(byId, lists, classes, loaders, fields + fields', c, sources + sources', second)
  {}

  lemma ListStep(byId: ClassesById, base: Lists, lists: Lists, more: Lists,
                 classes: seq<ClassRecord>, loaders: seq<MetaLoader>, n: nat, second: bool, c: string,
                 added: seq<MetaField>)
    requires n < |loaders| && c in byId
    requires Extends(lists, more) && c in base && c in lists && base[c] <= lists[c]
    requires AllBuilt(byId, lists, classes, loaders, lists[c][|base[c]|..], c,
                      OwnSources(classes, loaders, n, c, second), second)
    requires more[c] == lists[c] + added
    requires AllBuilt(byId, lists, classes, loaders, added, c,
                      From(Own(classes, FieldsOf(loaders[n]), c, second), n), second)
    ensures base[c] <= more[c]
    ensures AllBuilt(byId, more, classes, loaders, more[c][|base[c]|..], c,
                     OwnSources(classes, loaders, n + 1, c, second), second)
  {
    var fields, sources := lists[c][|base[c]|..], OwnSources(classes, loaders, n, c, second);
    var sources' := From(Own(classes, FieldsOf(loaders[n]), c, second), n);
    BuiltGrow(byId, lists, more, classes, loaders, c, fields, sources, added, sources', second);
    DropOfAppended(base[c], lists[c], added);
  }

  lemma DropOfAppended<T>(front: seq<T>, s: seq<T>, added: seq<T>)
    requires front <= s
    ensures front <= s + added && (s + added)[|front|..] == s[|front|..] + added
  {}

  lemma BuiltGrow(byId: ClassesById, lists: Lists, more: Lists,
                  classes: seq<ClassRecord>, loaders: seq<MetaLoader>, c: string,
                  fields: seq<MetaField>, sources: seq<Source>, fields': seq<MetaField>, sources': seq<Source>,
                  second: bool)
    requires Extends(lists, more)
    requires AllBuilt(byId, lists, classes, loaders, fields, c, sources, second)
    requires AllBuilt(byId, lists, classes, loaders, fields', c, sources', second)
    ensures AllBuilt(byId, more, classes, loaders, fields + fields', c, sources + sources', second)
  {
    BuiltConcat(byId, lists, classes, loaders, c, fields, sources, fields', sources', second);
    BuiltStays(byId, lists, more, classes, loaders, fields + fields', c, sources + sources', second);
  }

  lemma BuiltMirrors(byId: ClassesById, lists: Lists, classes: seq<ClassRecord>, loaders: seq<MetaLoader>,
                     fields: seq<MetaField>, c: string, sources: seq<Source>, second: bool)
    requires AllBuilt(byId, lists, classes, loaders, fields, c, sources, second)
    ensures Mirrors(fields, Records(sources))
  {
    forall j | 0 <= j < |fields| ensures IsRecord(fields[j], Records(sources)[j]) {
      assert IsBuilt(byId, lists, classes, loaders, fields[j], c, sources[j], second);
    }
  }

  lemma MirrorsConcat(fields: seq<MetaField>, records: seq<FieldRecord>, fields': seq<MetaField>,
                      records': seq<FieldRecord>)
    requires Mirrors(fields, records) && Mirrors(fields', records')
    ensures Mirrors(fields + fields', records + records')
  {}

  lemma SeenNext(classes: seq<ClassRecord>, loaders: seq<MetaLoader>, n: nat, c: string, second: bool)
    requires n < |loaders|
    ensures Seen(classes, loaders, n + 1, c, second) ==
            Seen(classes, loaders, n, c, second) + Own(classes, FieldsOf(loaders[n]), c, second)
  {
    AllFieldsNext(loaders, n);
    OwnConcat(classes, AllFields(loaders[..n]), FieldsOf(loaders[n]), c, second);
  }

  lemma AllFieldsNext(loaders: seq<MetaLoader>, n: nat)
    requires n < |loaders|
    ensures AllFields(loaders[..n + 1]) == AllFields(loaders[..n]) + FieldsOf(loaders[n])
  {
    assert loaders[..n + 1][..n] == loaders[..n];
  }

  lemma StageNext(byId: ClassesById, lists: Lists, classes: seq<ClassRecord>, loaders: seq<MetaLoader>,
                  n: nat, second: bool, c: string, added: seq<MetaField>)
    requires n < |loaders| && c in lists
    requires Mirrors(lists[c], Seen(classes, loaders, n, c, second))
    requires AllBuilt(byId, lists, classes, loaders, added, c,
                      From(Own(classes, FieldsOf(loaders[n]), c, second), n), second)
    ensures Mirrors(lists[c] + added, Seen(classes, loaders, n + 1, c, second))
  {
    var own := Own(classes, FieldsOf(loaders[n]), c, second);
    BuiltMirrors(byId, lists, classes, loaders, added, c, From(own, n), second);
    assert Records(From(own, n)) == own;
    MirrorsConcat(lists[c], Seen(classes, loaders, n, c, second), added, own);
    SeenNext(classes, loaders, n, c, second);
  }

  /** The lists after a loader's turn: each class's list with what the pass adds, as built. */
  ghost predicate Turn(byId: ClassesById, lists: Lists, more: Lists,
                       classes: seq<ClassRecord>, loaders: seq<MetaLoader>, n: nat, second: bool)
    requires n < |loaders|
  {
    && lists.Keys == more.Keys == byId.Keys
    && forall c | c in byId ::
         && lists[c] <= more[c]
         && AllBuilt(byId, lists, classes, loaders, more[c][|lists[c]|..], c,
                     From(Own(classes, FieldsOf(loaders[n]), c, second), n), second)
  }

  lemma TurnStageAt(byId: ClassesById, lists: Lists, more: Lists,
                    classes: seq<ClassRecord>, loaders: seq<MetaLoader>, n: nat, second: bool, c: string)
    requires n < |loaders| && c in lists && c in more && lists[c] <= more[c]
    requires AllBuilt(byId, lists, classes, loaders, more[c][|lists[c]|..], c,
                      From(Own(classes, FieldsOf(loaders[n]), c, second), n), second)
    requires Mirrors(lists[c], Seen(classes, loaders, n, c, second))
    ensures Mirrors(more[c], Seen(classes, loaders, n + 1, c, second))
  {
    var added := more[c][|lists[c]|..];
    assert more[c] == lists[c] + added;
    StageNext(byId, lists, classes, loaders, n, second, c, added);
  }

  lemma TurnStage(byId: ClassesById, lists: Lists, more: Lists,
                  classes: seq<ClassRecord>, loaders: seq<MetaLoader>, n: nat, second: bool)
    requires n < |loaders| && Turn(byId, lists, more, classes, loaders, n, second)
    requires Stage(byId, lists, classes, loaders, n, second)
    ensures Stage(byId, more, classes, loaders, n + 1, second)
  {
    forall c | c in more ensures Mirrors(more[c], Seen(classes, loaders, n + 1, c, second)) {
      TurnStageAt(byId, lists, more, classes, loaders, n, second, c);
    }
  }

  lemma TurnAfter(byId: ClassesById, base: Lists, lists: Lists, more: Lists,
                  classes: seq<ClassRecord>, loaders: seq<MetaLoader>, n: nat, second: bool)
    requires n < |loaders| && Turn(byId, lists, more, classes, loaders, n, second)
    requires AfterLoaders(byId, base, lists, classes, loaders, n, second)
    ensures AfterLoaders(byId, base, more, classes, loaders, n + 1, second)
  {
    forall c | c in byId
      ensures base[c] <= more[c]
      ensures AllBuilt(byId, more, classes, loaders, more[c][|base[c]|..], c,
                       OwnSources(classes, loaders, n + 1, c, second), second)
    {
      var added := more[c][|lists[c]|..];
      assert more[c] == lists[c] + added;
      ListStep(byId, base, lists, more, classes, loaders, n, second, c, added);
    }
  }

  lemma KeptOwnersKnown(byId: ClassesById, lists: Lists, classes: seq<ClassRecord>, loaders: seq<MetaLoader>,
                        fields: seq<MetaField>, kept: seq<FieldRecord>, n: nat, second: bool)
    requires n <= |loaders| && AllMade(byId, lists, classes, loaders, fields, kept, n, second)
    ensures forall f | f in fields && f.owner != null :: f.owner in byId.Values
  {
    forall f | f in fields && f.owner != null ensures f.owner in byId.Values {
      var k :| 0 <= k < |fields| && fields[k] == f;
      assert Made(byId, lists, classes, loaders, fields[k], kept[k], n, second);
    }
  }

  /** One loader's turn in a pass: everything it loads is built against what the classes hold now. */
  method RunLoader(loader: MetaLoader, byId: ClassesById, byCode: map<string, MetaClass>, second: bool,
                   ghost classes: seq<ClassRecord>, ghost loaders: seq<MetaLoader>, ghost n: nat)
    requires n < |loaders| && loader == loaders[n]
    requires Indexed(byId, byCode, classes) && AllInStep(byId)
    requires Stage(byId, FieldLists(byId), classes, loaders, n, second)
    modifies byId.Values
    ensures AllInStep(byId)
    ensures Turn(byId, old(FieldLists(byId)), FieldLists(byId), classes, loaders, n, second)
  {
    ghost var lists := FieldLists(byId);
    var fields := LoadFields(loader, byId, byCode, lists, classes, loaders, n, second);
    ghost var kept := LoadedOnly(classes, FieldsOf(loader));
    LoadedOnlyLoaded(classes, FieldsOf(loader));
    KeptOwnersKnown(byId, lists, classes, loaders, fields, kept, n, second);
    AddFields(fields, byId, second);
    forall c | c in byId
      ensures lists[c] <= byId[c].fields
      ensures AllBuilt(byId, lists, classes, loaders, byId[c].fields[|lists[c]|..], c,
                       From(Own(classes, FieldsOf(loader), c, second), n), second)
    {
      AddedAreBuilt(byId, lists, classes, loaders, fields, kept, n, c, second);
      OwnOfLoaded(classes, FieldsOf(loader), c, second);
      assert byId[c].fields == lists[c] + Added(fields, byId[c], second);
    }
  }

  /** One pass over all loaders, in the order the concurrent set yields them. */
  method RunPass(loaders: seq<MetaLoader>, byId: ClassesById, byCode: map<string, MetaClass>, second: bool,
                 ghost classes: seq<ClassRecord>)
    requires Indexed(byId, byCode, classes) && AllInStep(byId)
    requires Stage(byId, FieldLists(byId), classes, loaders, 0, second)
    modifies byId.Values
    ensures AllInStep(byId)
    ensures Stage(byId, FieldLists(byId), classes, loaders, |loaders|, second)
    ensures AfterLoaders(byId, old(FieldLists(byId)), FieldLists(byId), classes, loaders, |loaders|, second)
  {
    ghost var base := FieldLists(byId);
    assert forall c | c in byId :: base[c][|base[c]|..] == [];
    for n := 0 to |loaders|
      invariant AllInStep(byId)
      invariant Stage(byId, FieldLists(byId), classes, loaders, n, second)
      invariant AfterLoaders(byId, base, FieldLists(byId), classes, loaders, n, second)
    {
      ghost var lists := FieldLists(byId);
      RunLoader(loaders[n], byId, byCode, second, classes, loaders, n);
      TurnStage(byId, lists, FieldLists(byId), classes, loaders, n, second);
      TurnAfter(byId, base, lists, FieldLists(byId), classes, loaders, n, second);
    }
  }

  // ---------------------------------------------------------------- loading classes

  /** An id is the key of one row, which also holds the code: a static and a dynamic class may share both. */
  predicate OneRowEach(classes: seq<ClassRecord>) {
    forall c, d | c in classes && d in classes && c.id == d.id :: c.code == d.code
  }

  /** No later class has the id. */
  predicate IsLast(classes: seq<ClassRecord>, k: nat)
    requires k < |classes|
  {
    forall j | k < j < |classes| :: classes[j].id != classes[k].id
  }

  function InMap(m: map<string, MetaClass>, key: Option<string>): Option<MetaClass> {
    if key.Some? && key.value in m then Some(m[key.value]) else None
  }

  /** The by-code map finds, for every code, the object of the class loaded last with it. */
  ghost predicate CodesFound(byId: ClassesById, byCode: map<string, MetaClass>, classes: seq<ClassRecord>) {
    forall code :: InMap(byCode, Some(code)) == InMap(byId, Resolve(classes, ByCode(code)))
  }

  /** One object per class record; of those with one id, the one loaded last is found by it. */
  ghost predicate Objects(result: seq<MetaClass>, byId: ClassesById, classes: seq<ClassRecord>) {
    && |result| == |classes|
    && (forall k | 0 <= k < |classes| ::
          result[k].id == classes[k].id && result[k].code == classes[k].code && result[k].table == classes[k].table)
    && byId.Keys == (set r | r in classes :: r.id)
    && (forall id | id in byId :: byId[id].id == id && byId[id] in result)
    && forall k | 0 <= k < |classes| && IsLast(classes, k) :: byId[classes[k].id] == result[k]
  }

  ghost predicate Catalogue(result: seq<MetaClass>, byId: ClassesById, byCode: map<string, MetaClass>,
                            classes: seq<ClassRecord>) {
    Objects(result, byId, classes) && CodesFound(byId, byCode, classes)
  }

  lemma {:induction false} ResolveFinds(classes: seq<ClassRecord>, ref: Ref)
    ensures Resolve(classes, ref).Some? ==> exists k | 0 <= k < |classes| ::
              Names(classes[k], ref) && classes[k].id == Resolve(classes, ref).value
    ensures Resolve(classes, ref).None? ==> forall c | c in classes :: !Names(c, ref)
  {
    if classes != [] {
      ResolveFinds(classes[..|classes| - 1], ref);
      assert classes == classes[..|classes| - 1] + [classes[|classes| - 1]];
    }
  }

  lemma CatalogueIndexed(result: seq<MetaClass>, byId: ClassesById, byCode: map<string, MetaClass>,
                         classes: seq<ClassRecord>)
    requires Catalogue(result, byId, byCode, classes)
    ensures Indexed(byId, byCode, classes)
  {
    forall ref
      ensures ObjectFor(byId, byCode, ref) == ObjectOf(byId, Resolve(classes, ref))
      ensures Resolve(classes, ref).Some? ==> Resolve(classes, ref).value in byId
    {
      ResolveFinds(classes, ref);
      if ref.ById? && ref.id in byId {
        var r :| r in classes && r.id == ref.id;
        assert Names(r, ref);
      }
      if ref.ByCode? {
        assert InMap(byCode, Some(ref.code)) == InMap(byId, Resolve(classes, ref));
      }
    }
  }

  lemma CodesFoundStep(byId: ClassesById, byCode: map<string, MetaClass>, classes: seq<ClassRecord>, r: ClassRecord,
                       c: MetaClass)
    requires CodesFound(byId, byCode, classes) && forall q | q in classes && q.id == r.id :: q.code == r.code
    ensures CodesFound(byId[r.id := c], byCode[r.code := c], classes + [r])
  {
    assert (classes + [r])[..|classes|] == classes;
    forall code
      ensures InMap(byCode[r.code := c], Some(code)) == InMap(byId[r.id := c], Resolve(classes + [r], ByCode(code)))
    {
      ResolveFinds(classes, ByCode(code));
      assert InMap(byCode, Some(code)) == InMap(byId, Resolve(classes, ByCode(code)));
    }
  }

  lemma ObjectsStep(result: seq<MetaClass>, byId: ClassesById, classes: seq<ClassRecord>, r: ClassRecord, c: MetaClass)
    requires Objects(result, byId, classes)
    requires c.id == r.id && c.code == r.code && c.table == r.table
    ensures Objects(result + [c], byId[r.id := c], classes + [r])
  {
    var more := classes + [r];
    assert byId[r.id := c].Keys == set q | q in more :: q.id;
    forall k | 0 <= k < |more| && IsLast(more, k) ensures byId[r.id := c][more[k].id] == (result + [c])[k] {
      if k < |classes| {
        assert more[|classes|].id != more[k].id;
        assert forall j | k < j < |classes| :: more[j] == classes[j];
        assert IsLast(classes, k);
      }
    }
  }

  lemma CatalogueStep(result: seq<MetaClass>, byId: ClassesById, byCode: map<string, MetaClass>,
                      classes: seq<ClassRecord>, r: ClassRecord, c: MetaClass)
    requires Catalogue(result, byId, byCode, classes) && forall q | q in classes && q.id == r.id :: q.code == r.code
    requires c.id == r.id && c.code == r.code && c.table == r.table
    ensures Catalogue(result + [c], byId[r.id := c], byCode[r.code := c], classes + [r])
  {
    CodesFoundStep(byId, byCode, classes, r, c);
    ObjectsStep(result, byId, classes, r, c);
  }

  /** The data source of every class, keyed by class identity. */
  function SourcesOf(classes: seq<ClassRecord>): map<string, string> {
    if classes == [] then map[]
    else SourcesOf(classes[..|classes| - 1])[classes[|classes| - 1].id := classes[|classes| - 1].dataSource]
  }

  ghost predicate AllEmpty(result: seq<MetaClass>)
    reads result
  {
    forall c | c in result :: c.fields == [] && c.InStep()
  }

  method LoadClasses(classes: seq<ClassRecord>)
    returns (result: seq<MetaClass>, byId: ClassesById, byCode: map<string, MetaClass>)
    requires OneRowEach(classes)
    ensures Catalogue(result, byId, byCode, classes)
    ensures forall c | c in result :: fresh(c)
    ensures AllEmpty(result)
  {
    result, byId, byCode := [], map[], map[];
    for i := 0 to |classes|
      invariant Catalogue(result, byId, byCode, classes[..i])
      invariant forall c | c in result :: fresh(c)
      invariant AllEmpty(result)
    {
      var meta := new MetaClass(classes[i]);
      assert classes[..i + 1] == classes[..i] + [classes[i]];
      assert classes[i] in classes && forall q | q in classes[..i] :: q in classes;
      CatalogueStep(result, byId, byCode, classes[..i], classes[i], meta);
      result := result + [meta];
      byId := byId[classes[i].id := meta];
      byCode := byCode[classes[i].code := meta];
    }
    assert classes[..|classes|] == classes;
  }

  method CollectSources(classes: seq<ClassRecord>) returns (dataSourceMap: map<string, string>)
    ensures dataSourceMap == SourcesOf(classes)
  {
    dataSourceMap := map[];
    for i := 0 to |classes|
      invariant dataSourceMap == SourcesOf(classes[..i])
    {
      assert classes[..i + 1][..i] == classes[..i];
      dataSourceMap := dataSourceMap[classes[i].id := classes[i].dataSource];
    }
    assert classes[..|classes|] == classes;
  }

  lemma {:induction false} SourcesOfIds(classes: seq<ClassRecord>)
    ensures SourcesOf(classes).Keys == set r | r in classes :: r.id
  {
    if classes != [] {
      SourcesOfIds(classes[..|classes| - 1]);
      assert classes == classes[..|classes| - 1] + [classes[|classes| - 1]];
    }
  }

  lemma {:induction false} SourceOfRecord(classes: seq<ClassRecord>, k: nat)
    requires k < |classes| && IsLast(classes, k)
    ensures classes[k].id in SourcesOf(classes) && SourcesOf(classes)[classes[k].id] == classes[k].dataSource
  {
    if k < |classes| - 1 {
      var front := classes[..|classes| - 1];
      assert forall j | k < j < |front| :: front[j] == classes[j];
      SourceOfRecord(front, k);
    }
  }

  /**
   * After an initialisation a class object, of this load or of an earlier one, is served exactly when
   * its id was in the last load, and by the data source that load gave the id last.
   */
  lemma ServedIffLoaded(storage: DataSourceStorage, clazz: MetaClass, classes: seq<ClassRecord>)
    requires storage.dataSources == SourcesOf(classes)
    ensures storage.Get(clazz).Some? <==> exists r | r in classes :: r.id == clazz.id
    ensures forall k | 0 <= k < |classes| && IsLast(classes, k) && classes[k].id == clazz.id ::
              storage.Get(clazz) == Some(classes[k].dataSource)
  {
    SourcesOfIds(classes);
    forall k | 0 <= k < |classes| && IsLast(classes, k) && classes[k].id == clazz.id
      ensures storage.Get(clazz) == Some(classes[k].dataSource)
    {
      SourceOfRecord(classes, k);
    }
  }

  // ---------------------------------------------------------------- init

  /**
   * A class lists exactly its records, first the fields, then the back references, each built against what its
   * loader saw.
   */
  ghost predicate ListBuilt(byId: ClassesById, lists: Lists, classes: seq<ClassRecord>, loaders: seq<MetaLoader>,
                            c: string)
    requires c in lists
  {
    var first := OwnSources(classes, loaders, |loaders|, c, false);
    && |first| <= |lists[c]|
    && AllBuilt(byId, lists, classes, loaders, lists[c][..|first|], c, first, false)
    && AllBuilt(byId, lists, classes, loaders, lists[c][|first|..], c,
                OwnSources(classes, loaders, |loaders|, c, true), true)
  }

  /** The graph after an initialisation. */
  ghost predicate Initialised(byId: ClassesById, lists: Lists, classes: seq<ClassRecord>, loaders: seq<MetaLoader>) {
    && Stage(byId, lists, classes, loaders, |loaders|, true)
    && forall c {:trigger ListBuilt(byId, lists, classes, loaders, c)} | c in byId ::
       ListBuilt(byId, lists, classes, loaders, c)
  }

  lemma StartOfPass(byId: ClassesById, lists: Lists, classes: seq<ClassRecord>, loaders: seq<MetaLoader>)
    requires lists.Keys == byId.Keys && forall c | c in lists :: lists[c] == []
    ensures Stage(byId, lists, classes, loaders, 0, false)
  {
    assert loaders[..0] == [];
  }

  lemma BetweenPasses(byId: ClassesById, lists: Lists, classes: seq<ClassRecord>, loaders: seq<MetaLoader>)
    requires Stage(byId, lists, classes, loaders, |loaders|, false)
    ensures Stage(byId, lists, classes, loaders, 0, true)
  {
    assert loaders[..0] == [] && loaders[..|loaders|] == loaders;
    forall c | c in lists ensures Seen(classes, loaders, 0, c, true) == Seen(classes, loaders, |loaders|, c, false) {}
  }

  lemma EndOfPasses(byId: ClassesById, empty: Lists, middle: Lists, lists: Lists,
                    classes: seq<ClassRecord>, loaders: seq<MetaLoader>)
    requires forall c | c in empty :: empty[c] == []
    requires AfterLoaders(byId, empty, middle, classes, loaders, |loaders|, false)
    requires AfterLoaders(byId, middle, lists, classes, loaders, |loaders|, true)
    requires Stage(byId, lists, classes, loaders, |loaders|, true)
    ensures Initialised(byId, lists, classes, loaders)
  {
    forall c | c in byId ensures ListBuilt(byId, lists, classes, loaders, c) {
      assert middle[c][|empty[c]|..] == middle[c];
      BuiltStays(byId, middle, lists, classes, loaders, middle[c], c, OwnSources(classes, loaders, |loaders|, c,
                                                                                 false), false);
    }
  }

  /** Both passes over classes that have no fields yet. */
  method LoadAllFields(loaders: seq<MetaLoader>, byId: ClassesById, byCode: map<string, MetaClass>,
                       ghost classes: seq<ClassRecord>)
    requires Indexed(byId, byCode, classes) && AllInStep(byId)
    requires forall id | id in byId :: byId[id].fields == []
    modifies byId.Values
    ensures AllInStep(byId)
    ensures Initialised(byId, FieldLists(byId), classes, loaders)
  {
    ghost var empty := FieldLists(byId);
    StartOfPass(byId, empty, classes, loaders);
    RunPass(loaders, byId, byCode, false, classes);
    ghost var middle := FieldLists(byId);
    BetweenPasses(byId, middle, classes, loaders);
    RunPass(loaders, byId, byCode, true, classes);
    EndOfPasses(byId, empty, middle, FieldLists(byId), classes, loaders);
  }

  /**
   * One object per class record, those found by id with their fields as initialised and their by-code
   * maps in step, the superseded ones left without fields.
   */
  ghost predicate IsGraph(result: seq<MetaClass>, byId: ClassesById, loaders: seq<MetaLoader>)
    reads byId.Values, result
  {
    && Objects(result, byId, AllClasses(loaders))
    && Initialised(byId, FieldLists(byId), AllClasses(loaders), loaders)
    && AllInStep(byId)
    && forall c | c in result && c !in byId.Values :: c.fields == []
  }

  /** Classes, then fields: the graph, not yet published. */
  method Load(loaders: seq<MetaLoader>)
    returns (result: seq<MetaClass>, byId: ClassesById, dataSourceMap: map<string, string>)
    requires OneRowEach(AllClasses(loaders))
    ensures IsGraph(result, byId, loaders)
    ensures dataSourceMap == SourcesOf(AllClasses(loaders))
    ensures forall c | c in result :: fresh(c)
  {
    var byCode;
    result, byId, byCode := LoadClasses(AllClasses(loaders));
    dataSourceMap := CollectSources(AllClasses(loaders));
    CatalogueIndexed(result, byId, byCode, AllClasses(loaders));
    AllOfCatalogue(result, byId, byCode, AllClasses(loaders));
    LoadAllFields(loaders, byId, byCode, AllClasses(loaders));
  }

  class MetaInitializerImpl {
    const metaStorage: MetaStorageImpl
    const dataSourceStorage: DataSourceStorage

    constructor (metaStorage: MetaStorageImpl, dataSourceStorage: DataSourceStorage)
      ensures this.metaStorage == metaStorage && this.dataSourceStorage == dataSourceStorage
    {
      this.metaStorage, this.dataSourceStorage := metaStorage, dataSourceStorage;
    }

    /** `init` over the loaders, in the order their concurrent set yields them. */
    method Init(loaders: seq<MetaLoader>) returns (result: seq<MetaClass>, byId: ClassesById)
      requires OneRowEach(AllClasses(loaders))
      modifies metaStorage, dataSourceStorage
      ensures IsGraph(result, byId, loaders)
      ensures metaStorage.Maps() == PublishAll(old(metaStorage.Maps()), result)
      ensures metaStorage.metaFieldById == PublishAllFields(old(metaStorage.metaFieldById), result)
      ensures dataSourceStorage.dataSources == SourcesOf(AllClasses(loaders))
    {
      var dataSourceMap;
      result, byId, dataSourceMap := Load(loaders);
      Publish(result, dataSourceMap);
    }

    method Publish(result: seq<MetaClass>, dataSourceMap: map<string, string>)
      modifies metaStorage, dataSourceStorage
      ensures metaStorage.Maps() == PublishAll(old(metaStorage.Maps()), result)
      ensures metaStorage.metaFieldById == PublishAllFields(old(metaStorage.metaFieldById), result)
      ensures dataSourceStorage.dataSources == dataSourceMap
    {
      dataSourceStorage.RegisterAllWithClean(dataSourceMap);
      metaStorage.Register(result);
    }
  }

  lemma AllOfCatalogue(result: seq<MetaClass>, byId: ClassesById, byCode: map<string, MetaClass>,
                       classes: seq<ClassRecord>)
    requires Catalogue(result, byId, byCode, classes)
    ensures forall id | id in byId :: byId[id] in result
    ensures byId.Values <= set c | c in result
  {}
}
