/** What the two-pass initialisation guarantees, whatever order the loaders come in. */
module MetaGraphProofs {
  import opened Wrappers
  import opened Meta
  import opened MetaRecords
  import opened MetaObjects
  import opened MetaInitializer

  // ---------------------------------------------------------------- membership

  lemma {:induction false} OwnMembers(classes: seq<ClassRecord>, fields: seq<FieldRecord>, cls: string, second: bool,
                                      r: FieldRecord)
    ensures r in Own(classes, fields, cls, second) <==> r in fields && OwnedBy(classes, r, cls) && InPass(r, second)
    ensures multiset(Own(classes, fields, cls, second))[r] ==
            if OwnedBy(classes, r, cls) && InPass(r, second) then multiset(fields)[r] else 0
  {
    if fields != [] {
      OwnMembers(classes, fields[..|fields| - 1], cls, second, r);
      assert fields == fields[..|fields| - 1] + [fields[|fields| - 1]];
    }
  }

  lemma {:induction false} AllFieldsHave(loaders: seq<MetaLoader>, l: MetaLoader, r: FieldRecord)
    requires l in loaders && r in FieldsOf(l)
    ensures r in AllFields(loaders)
  {
    var front, last := loaders[..|loaders| - 1], loaders[|loaders| - 1];
    if l != last {
      assert loaders == front + [last];
      AllFieldsHave(front, l, r);
    }
  }

  lemma {:induction false} AllFieldsFrom(loaders: seq<MetaLoader>, r: FieldRecord) returns (l: MetaLoader)
    requires r in AllFields(loaders)
    ensures l in loaders && r in FieldsOf(l)
  {
    l := loaders[|loaders| - 1];
    if r !in FieldsOf(l) {
      l := AllFieldsFrom(loaders[..|loaders| - 1], r);
    }
  }

  lemma {:induction false} AllClassesHave(loaders: seq<MetaLoader>, l: MetaLoader, c: ClassRecord)
    requires l in loaders && c in ClassesOf(l)
    ensures c in AllClasses(loaders)
  {
    var front, last := loaders[..|loaders| - 1], loaders[|loaders| - 1];
    if l != last {
      assert loaders == front + [last];
      AllClassesHave(front, l, c);
    }
  }

  lemma {:induction false} AllClassesFrom(loaders: seq<MetaLoader>, c: ClassRecord) returns (l: MetaLoader)
    requires c in AllClasses(loaders)
    ensures l in loaders && c in ClassesOf(l)
  {
    l := loaders[|loaders| - 1];
    if c !in ClassesOf(l) {
      l := AllClassesFrom(loaders[..|loaders| - 1], c);
    }
  }

  // ---------------------------------------------------------------- exactly once

  /**
   * Although every loader is asked twice, a class ends up with each of its loaded records exactly as
   * often as the loaders hold it, and with no other.
   */
  lemma EachFieldOnce(classes: seq<ClassRecord>, loaders: seq<MetaLoader>, cls: string, r: FieldRecord)
    ensures multiset(Final(classes, loaders, cls))[r] ==
            if OwnedBy(classes, r, cls) then multiset(AllFields(loaders))[r] else 0
  {
    assert loaders[..|loaders|] == loaders;
    OwnMembers(classes, AllFields(loaders), cls, false, r);
    OwnMembers(classes, AllFields(loaders), cls, true, r);
  }

  // ---------------------------------------------------------------- back references

  predicate Matches(classes: seq<ClassRecord>, g: FieldRecord, cls: string, target: Ref, second: bool) {
    OwnedBy(classes, g, cls) && InPass(g, second) && IsTarget(g, target)
  }

  lemma OwnTargets(classes: seq<ClassRecord>, fields: seq<FieldRecord>, cls: string, second: bool, target: Ref)
    ensures (exists g | g in Own(classes, fields, cls, second) :: IsTarget(g, target)) <==>
            (exists g | g in fields :: Matches(classes, g, cls, target, second))
  {
    var own := Own(classes, fields, cls, second);
    if g :| g in own && IsTarget(g, target) {
      OwnMembers(classes, fields, cls, second, g);
      assert g in fields && Matches(classes, g, cls, target, second);
    }
    if g :| g in fields && Matches(classes, g, cls, target, second) {
      OwnMembers(classes, fields, cls, second, g);
      assert g in own && IsTarget(g, target);
    }
  }

  lemma FindsInEither(first: seq<FieldRecord>, second: seq<FieldRecord>, target: Ref)
    ensures FindTarget(first + second, target).Some? <==>
            (exists g | g in first :: IsTarget(g, target)) || (exists g | g in second :: IsTarget(g, target))
  {
    assert forall g :: g in first + second <==> g in first || g in second;
  }

  /**
   * Exactly when the target of a record of the loader at position i is found. A back reference finds a
   * matching field of its linked class that is no back reference, or a matching back reference of an
   * earlier loader; in the first pass only earlier loaders have added anything.
   */
  lemma BackReferenceResolvesIff(classes: seq<ClassRecord>, loaders: seq<MetaLoader>, i: nat, r: FieldRecord,
                                 second: bool)
    requires i <= |loaders| && ResolveLink(classes, r).Some? && r.target.Some?
    ensures var cls := ResolveLink(classes, r).value;
            TargetIndex(classes, loaders, i, r, second).Some? <==>
            || (second && exists g | g in AllFields(loaders) :: Matches(classes, g, cls, r.target.value, false))
            || (exists g | g in AllFields(loaders[..i]) :: Matches(classes, g, cls, r.target.value, second))
  {
    var cls, target := ResolveLink(classes, r).value, r.target.value;
    OwnTargets(classes, AllFields(loaders), cls, false, target);
    OwnTargets(classes, AllFields(loaders[..i]), cls, second, target);
    FindsInEither(if second then Own(classes, AllFields(loaders), cls, false) else [],
                  Own(classes, AllFields(loaders[..i]), cls, second), target);
  }

  /**
   * The field object links to the class and refers back to the very object in that class's list answering the
   * target.
   */
  ghost predicate PointsIntoList(byId: ClassesById, lists: Lists, f: MetaField, final: seq<FieldRecord>,
                                 link: string, target: Ref)
    requires link in byId && link in lists
  {
    && f.linkToMetaClass == byId[link]
    && f.backReferenceField != null && f.backReferenceField in lists[link]
    && exists h | h in final :: IsTarget(h, target) && IsRecord(f.backReferenceField, h)
  }

  lemma BuiltPointsIntoList(byId: ClassesById, lists: Lists, classes: seq<ClassRecord>, loaders: seq<MetaLoader>,
                            f: MetaField, cls: string, s: Source, link: string, target: Ref, g: FieldRecord)
    requires link in byId && link in lists && Mirrors(lists[link], Final(classes, loaders, link))
    requires IsBuilt(byId, lists, classes, loaders, f, cls, s, true)
    requires ResolveLink(classes, s.r) == Some(link) && s.r.target == Some(target)
    requires g in AllFields(loaders) && Matches(classes, g, link, target, false)
    ensures PointsIntoList(byId, lists, f, Final(classes, loaders, link), link, target)
  {
    BackReferenceResolvesIff(classes, loaders, s.loader, s.r, true);
    var k := TargetIndex(classes, loaders, s.loader, s.r, true).value;
    SeenIsPrefix(classes, loaders, s.loader, link, true);
    var h := Final(classes, loaders, link)[k];
    assert h == Seen(classes, loaders, s.loader, link, true)[k];
    assert h in Final(classes, loaders, link) && IsTarget(h, target) && IsRecord(lists[link][k], h);
  }

  /** What a loader sees is a prefix of what the pass leaves behind. */
  lemma SeenIsPrefixOfPass(classes: seq<ClassRecord>, loaders: seq<MetaLoader>, i: nat, cls: string, second: bool)
    requires i <= |loaders|
    ensures Seen(classes, loaders, i, cls, second) <= Seen(classes, loaders, |loaders|, cls, second)
    decreases |loaders| - i
  {
    if i < |loaders| {
      SeenIsPrefixOfPass(classes, loaders, i + 1, cls, second);
      SeenNext(classes, loaders, i, cls, second);
      PrefixOfPrefix(Seen(classes, loaders, i, cls, second), Own(classes, FieldsOf(loaders[i]), cls, second),
                     Seen(classes, loaders, |loaders|, cls, second));
    } else {
      assert i == |loaders|;
    }
  }

  /** And so of the final list. */
  lemma SeenIsPrefix(classes: seq<ClassRecord>, loaders: seq<MetaLoader>, i: nat, cls: string, second: bool)
    requires i <= |loaders|
    ensures Seen(classes, loaders, i, cls, second) <= Final(classes, loaders, cls)
  {
    SeenIsPrefixOfPass(classes, loaders, i, cls, second);
    if !second {
      FirstPassIsPrefix(classes, loaders, cls);
      PrefixTransitive(Seen(classes, loaders, i, cls, false), Seen(classes, loaders, |loaders|, cls, false),
                       Final(classes, loaders, cls));
    }
  }

  lemma FirstPassIsPrefix(classes: seq<ClassRecord>, loaders: seq<MetaLoader>, cls: string)
    ensures Seen(classes, loaders, |loaders|, cls, false) <= Final(classes, loaders, cls)
  {
    assert loaders[..|loaders|] == loaders;
  }

  lemma PrefixTransitive<T>(front: seq<T>, middle: seq<T>, whole: seq<T>)
    requires front <= middle <= whole
    ensures front <= whole
  {}

  lemma PrefixOfPrefix<T>(front: seq<T>, middle: seq<T>, whole: seq<T>)
    requires front + middle <= whole
    ensures front <= whole
  {}

  // ---------------------------------------------------------------- the order of the loaders

  ghost predicate SameLoaders(a: seq<MetaLoader>, b: seq<MetaLoader>) {
    forall l :: l in a <==> l in b
  }

  /** Class ids and codes are each used once. */
  ghost predicate DistinctClasses(classes: seq<ClassRecord>) {
    forall c, d | c in classes && d in classes && (c.id == d.id || c.code == d.code) :: c == d
  }

  /** Within a class, field ids and codes are each used once. */
  ghost predicate DistinctFields(classes: seq<ClassRecord>, fields: seq<FieldRecord>) {
    forall f, g, cls | f in fields && g in fields && OwnedBy(classes, f, cls) && OwnedBy(classes, g, cls)
                       && (f.id == g.id || f.code == g.code) :: f == g
  }

  lemma {:induction false} ResolveUnique(classes: seq<ClassRecord>, ref: Ref, c: ClassRecord)
    requires DistinctClasses(classes) && c in classes && Names(c, ref)
    ensures Resolve(classes, ref) == Some(c.id)
  {
    ResolveFinds(classes, ref);
    var k :| 0 <= k < |classes| && Names(classes[k], ref) && classes[k].id == Resolve(classes, ref).value;
    assert classes[k] in classes;
  }

  lemma ResolveOrderFree(classes: seq<ClassRecord>, classes': seq<ClassRecord>, ref: Ref)
    requires DistinctClasses(classes) && forall c :: c in classes <==> c in classes'
    ensures Resolve(classes, ref) == Resolve(classes', ref)
  {
    ResolveFinds(classes, ref);
    ResolveFinds(classes', ref);
    if Resolve(classes, ref).Some? {
      var k :| 0 <= k < |classes| && Names(classes[k], ref) && classes[k].id == Resolve(classes, ref).value;
      ResolveUnique(classes', ref, classes[k]);
    }
  }

  /** The record that the target of a record finds in its own pass, with the class that holds it. */
  function TargetRecord(classes: seq<ClassRecord>, loaders: seq<MetaLoader>, i: nat, r: FieldRecord)
    : Option<(string, FieldRecord)>
    requires i <= |loaders|
  {
    var k := TargetIndex(classes, loaders, i, r, r.kind.BackReference?);
    if k.None? then None
    else
      var link := ResolveLink(classes, r).value;
      Some((link, Seen(classes, loaders, i, link, r.kind.BackReference?)[k.value]))
  }

  ghost predicate NoDuplicates(loaders: seq<MetaLoader>) {
    forall i, j | 0 <= i < j < |loaders| :: loaders[i] != loaders[j]
  }

  /** The target is answered by a field of the linked class that the first pass has added for good. */
  predicate MatchedByField(classes: seq<ClassRecord>, fields: seq<FieldRecord>, link: string, target: Ref) {
    exists g | g in fields :: Matches(classes, g, link, target, false)
  }

  /** A record whose target is matched only by records of its own pass, one of them of another loader. */
  ghost predicate Contested(loaders: seq<MetaLoader>, l: MetaLoader, r: FieldRecord) {
    var classes := AllClasses(loaders);
    var link, second := ResolveLink(classes, r), r.kind.BackReference?;
    && l in loaders && r in FieldsOf(l)
    && Resolve(classes, r.owner).Some? && link.Some? && r.target.Some?
    && (second ==> !MatchedByField(classes, AllFields(loaders), link.value, r.target.value))
    && exists m, g | m in loaders && m != l && g in FieldsOf(m) ::
       Matches(classes, g, link.value, r.target.value, second)
  }

  ghost predicate Uncontested(loaders: seq<MetaLoader>) {
    forall l, r :: !Contested(loaders, l, r)
  }

  lemma {:induction false} FieldOfEarlier(loaders: seq<MetaLoader>, i: nat, g: FieldRecord) returns (m: MetaLoader)
    requires NoDuplicates(loaders) && i < |loaders| && g in AllFields(loaders[..i])
    ensures m in loaders && m != loaders[i] && g in FieldsOf(m)
  {
    m := AllFieldsFrom(loaders[..i], g);
    var k :| 0 <= k < i && loaders[..i][k] == m;
    assert loaders[k] == m;
  }

  /**
   * An uncontested target is not matched by what earlier loaders have added in the pass, unless it is matched
   * for good.
   */
  lemma EarlierDoNotMatch(loaders: seq<MetaLoader>, i: nat, r: FieldRecord, g: FieldRecord)
    requires NoDuplicates(loaders) && i < |loaders| && r in FieldsOf(loaders[i]) && !Contested(loaders, loaders[i], r)
    requires var classes := AllClasses(loaders);
             Resolve(classes, r.owner).Some? && ResolveLink(classes, r).Some? && r.target.Some?
    requires g in AllFields(loaders[..i])
    ensures var classes, link := AllClasses(loaders), ResolveLink(AllClasses(loaders), r).value;
            Matches(classes, g, link, r.target.value, r.kind.BackReference?) ==>
              r.kind.BackReference? && MatchedByField(classes, AllFields(loaders), link, r.target.value)
  {
    var m := FieldOfEarlier(loaders, i, g);
    assert loaders[i] in loaders;
  }

  /** An uncontested record finds the one matching field of its linked class, wherever its loader stands. */
  lemma TargetRecordIs(loaders: seq<MetaLoader>, i: nat, r: FieldRecord)
    requires i < |loaders| && r in FieldsOf(loaders[i]) && Resolve(AllClasses(loaders), r.owner).Some?
    requires NoDuplicates(loaders) && DistinctFields(AllClasses(loaders), AllFields(loaders))
    requires !Contested(loaders, loaders[i], r)
    ensures var classes := AllClasses(loaders);
            var link, found := ResolveLink(classes, r), TargetRecord(classes, loaders, i, r);
            if link.None? || r.target.None? then found == None
            else forall g :: found == Some((link.value, g)) <==>
                             && r.kind.BackReference? && g in AllFields(loaders)
                             && Matches(classes, g, link.value, r.target.value, false)
  {
    var classes := AllClasses(loaders);
    var link, found := ResolveLink(classes, r), TargetRecord(classes, loaders, i, r);
    if link.Some? && r.target.Some? {
      BackReferenceResolvesIff(classes, loaders, i, r, r.kind.BackReference?);
      forall g | g in AllFields(loaders[..i])
        ensures Matches(classes, g, link.value, r.target.value, r.kind.BackReference?) ==>
                  r.kind.BackReference? && MatchedByField(classes, AllFields(loaders), link.value, r.target.value)
      {
        EarlierDoNotMatch(loaders, i, r, g);
      }
      if found.Some? {
        FoundIsTheField(classes, loaders, i, r, link.value);
      }
    }
  }

  lemma FoundIsTheField(classes: seq<ClassRecord>, loaders: seq<MetaLoader>, i: nat, r: FieldRecord, link: string)
    requires i <= |loaders| && DistinctFields(classes, AllFields(loaders))
    requires r.kind.BackReference? && r.target.Some? && ResolveLink(classes, r) == Some(link)
    requires MatchedByField(classes, AllFields(loaders), link, r.target.value)
    requires TargetRecord(classes, loaders, i, r).Some?
    ensures var h := TargetRecord(classes, loaders, i, r).value.1;
            && h in AllFields(loaders) && Matches(classes, h, link, r.target.value, false)
            && forall g | g in AllFields(loaders) && Matches(classes, g, link, r.target.value, false) :: g == h
  {
    var h := TargetRecord(classes, loaders, i, r).value.1;
    FoundIsOwned(classes, loaders, i, r, link, h);
    forall g | g in AllFields(loaders) && Matches(classes, g, link, r.target.value, false) ensures g == h {
      OneAnswers(classes, AllFields(loaders), g, h, link, r.target.value);
    }
  }

  lemma FoundIsOwned(classes: seq<ClassRecord>, loaders: seq<MetaLoader>, i: nat, r: FieldRecord, link: string,
                     h: FieldRecord)
    requires i <= |loaders| && r.kind.BackReference? && r.target.Some? && ResolveLink(classes, r) == Some(link)
    requires TargetRecord(classes, loaders, i, r) == Some((link, h))
    ensures h in AllFields(loaders) && OwnedBy(classes, h, link) && IsTarget(h, r.target.value)
  {
    SeenIsOwned(classes, loaders, i, link, h);
    assert FindTarget(Seen(classes, loaders, i, link, true), r.target.value).Some?;
  }

  lemma SeenIsOwned(classes: seq<ClassRecord>, loaders: seq<MetaLoader>, i: nat, cls: string, h: FieldRecord)
    requires i <= |loaders|
    ensures h in Seen(classes, loaders, i, cls, true) ==> h in AllFields(loaders) && OwnedBy(classes, h, cls)
  {
    var first, second := Own(classes, AllFields(loaders), cls, false), Own(classes, AllFields(loaders[..i]), cls, true);
    assert h in first + second <==> h in first || h in second;
    OwnMembers(classes, AllFields(loaders), cls, false, h);
    OwnMembers(classes, AllFields(loaders[..i]), cls, true, h);
    AllFieldsPrefix(loaders, i);
  }

  lemma OneAnswers(classes: seq<ClassRecord>, fields: seq<FieldRecord>, g: FieldRecord, h: FieldRecord, cls: string,
                   target: Ref)
    requires DistinctFields(classes, fields) && g in fields && h in fields
    requires OwnedBy(classes, g, cls) && OwnedBy(classes, h, cls) && IsTarget(g, target) && IsTarget(h, target)
    ensures g == h
  {}

  lemma {:induction false} AllFieldsPrefix(loaders: seq<MetaLoader>, i: nat)
    requires i <= |loaders|
    ensures forall r | r in AllFields(loaders[..i]) :: r in AllFields(loaders)
  {
    forall r | r in AllFields(loaders[..i]) ensures r in AllFields(loaders) {
      var l := AllFieldsFrom(loaders[..i], r);
      AllFieldsHave(loaders, l, r);
    }
  }

  /** What a class ends up with, without its order: the same in every order of the loaders. */
  lemma FieldsOrderFree(loaders: seq<MetaLoader>, loaders': seq<MetaLoader>, cls: string, r: FieldRecord)
    requires SameLoaders(loaders, loaders') && DistinctClasses(AllClasses(loaders))
    ensures r in Final(AllClasses(loaders), loaders, cls) <==> r in Final(AllClasses(loaders'), loaders', cls)
    ensures ResolveLink(AllClasses(loaders), r) == ResolveLink(AllClasses(loaders'), r)
  {
    var classes, classes' := AllClasses(loaders), AllClasses(loaders');
    SameRecords(loaders, loaders');
    ResolveOrderFree(classes, classes', r.owner);
    if r.link.Some? {
      ResolveOrderFree(classes, classes', r.link.value);
    }
    EachFieldOnce(classes, loaders, cls, r);
    EachFieldOnce(classes', loaders', cls, r);
    assert r in Final(classes, loaders, cls) <==> r in multiset(Final(classes, loaders, cls));
    assert r in Final(classes', loaders', cls) <==> r in multiset(Final(classes', loaders', cls));
    assert r in AllFields(loaders) <==> r in multiset(AllFields(loaders));
    assert r in AllFields(loaders') <==> r in multiset(AllFields(loaders'));
  }

  lemma KeepsRecords(loaders: seq<MetaLoader>, loaders': seq<MetaLoader>)
    requires SameLoaders(loaders, loaders')
    ensures forall c | c in AllClasses(loaders) :: c in AllClasses(loaders')
    ensures forall r | r in AllFields(loaders) :: r in AllFields(loaders')
  {
    forall c | c in AllClasses(loaders) ensures c in AllClasses(loaders') {
      var l := AllClassesFrom(loaders, c);
      AllClassesHave(loaders', l, c);
    }
    forall r | r in AllFields(loaders) ensures r in AllFields(loaders') {
      var l := AllFieldsFrom(loaders, r);
      AllFieldsHave(loaders', l, r);
    }
  }

  lemma SameRecords(loaders: seq<MetaLoader>, loaders': seq<MetaLoader>)
    requires SameLoaders(loaders, loaders')
    ensures forall c :: c in AllClasses(loaders) <==> c in AllClasses(loaders')
    ensures forall r :: r in AllFields(loaders) <==> r in AllFields(loaders')
  {
    KeepsRecords(loaders, loaders');
    KeepsRecords(loaders', loaders);
  }

  lemma OwnedOrderFree(loaders: seq<MetaLoader>, loaders': seq<MetaLoader>)
    requires SameLoaders(loaders, loaders') && DistinctClasses(AllClasses(loaders))
    ensures forall r, cls :: OwnedBy(AllClasses(loaders), r, cls) <==> OwnedBy(AllClasses(loaders'), r, cls)
  {
    forall r, cls ensures OwnedBy(AllClasses(loaders), r, cls) <==> OwnedBy(AllClasses(loaders'), r, cls) {
      SameRecords(loaders, loaders');
      ResolveOrderFree(AllClasses(loaders), AllClasses(loaders'), r.owner);
      FieldsOrderFree(loaders, loaders', cls, r);
    }
  }

  lemma LinksOrderFree(loaders: seq<MetaLoader>, loaders': seq<MetaLoader>)
    requires SameLoaders(loaders, loaders') && DistinctClasses(AllClasses(loaders))
    ensures forall ref :: Resolve(AllClasses(loaders), ref) == Resolve(AllClasses(loaders'), ref)
    ensures forall r :: ResolveLink(AllClasses(loaders), r) == ResolveLink(AllClasses(loaders'), r)
  {
    SameRecords(loaders, loaders');
    AllResolveOrderFree(AllClasses(loaders), AllClasses(loaders'));
  }

  lemma AllResolveOrderFree(classes: seq<ClassRecord>, classes': seq<ClassRecord>)
    requires DistinctClasses(classes) && forall c :: c in classes <==> c in classes'
    ensures forall ref :: Resolve(classes, ref) == Resolve(classes', ref)
    ensures forall r :: ResolveLink(classes, r) == ResolveLink(classes', r)
  {
    forall ref ensures Resolve(classes, ref) == Resolve(classes', ref) {
      ResolveOrderFree(classes, classes', ref);
    }
    forall r ensures ResolveLink(classes, r) == ResolveLink(classes', r) {
      if r.link.Some? {
        ResolveOrderFree(classes, classes', r.link.value);
      }
    }
  }

  lemma ContestedOrderFree(loaders: seq<MetaLoader>, loaders': seq<MetaLoader>, l: MetaLoader, r: FieldRecord)
    requires SameLoaders(loaders, loaders') && DistinctClasses(AllClasses(loaders))
    ensures Contested(loaders, l, r) ==> Contested(loaders', l, r)
  {
    if Contested(loaders, l, r) {
      SameRecords(loaders, loaders');
      LinksOrderFree(loaders, loaders');
      OwnedOrderFree(loaders, loaders');
      var classes := AllClasses(loaders);
      var m, g :| m in loaders && m != l && g in FieldsOf(m)
                  && Matches(classes, g, ResolveLink(classes, r).value, r.target.value, r.kind.BackReference?);
      var link := ResolveLink(classes, r).value;
      assert m in loaders' && Matches(AllClasses(loaders'), g, link, r.target.value, r.kind.BackReference?);
    }
  }

  /** The conditions under which the order of the loaders is immaterial. */
  ghost predicate OrderSafe(loaders: seq<MetaLoader>) {
    Distinct(loaders) && Uncontested(loaders)
  }

  /** Ids and codes are unique, of classes and within each class of fields; a loader is registered once. */
  ghost predicate Distinct(loaders: seq<MetaLoader>) {
    && NoDuplicates(loaders) && DistinctClasses(AllClasses(loaders))
    && DistinctFields(AllClasses(loaders), AllFields(loaders))
  }

  /** Another order of the same loaders. */
  ghost predicate IsOrderOf(loaders': seq<MetaLoader>, loaders: seq<MetaLoader>) {
    NoDuplicates(loaders') && SameLoaders(loaders, loaders')
  }

  lemma DistinctOrderFree(loaders: seq<MetaLoader>, loaders': seq<MetaLoader>)
    requires IsOrderOf(loaders', loaders) && Distinct(loaders)
    ensures Distinct(loaders')
  {
    SameRecords(loaders, loaders');
    OwnedOrderFree(loaders, loaders');
  }

  lemma OrderSafeOrderFree(loaders: seq<MetaLoader>, loaders': seq<MetaLoader>)
    requires IsOrderOf(loaders', loaders) && OrderSafe(loaders)
    ensures OrderSafe(loaders')
  {
    DistinctOrderFree(loaders, loaders');
    forall l, r ensures !Contested(loaders', l, r) {
      ContestedOrderFree(loaders', loaders, l, r);
    }
  }

  /**
   * Where no target is contested the order of the loaders is immaterial: in any two orders, and wherever
   * its loader stands in each, a record's target resolves to the same field of the same class.
   */
  lemma BackReferencesOrderFree(loaders: seq<MetaLoader>, loaders': seq<MetaLoader>, i: nat, i': nat, r: FieldRecord)
    requires IsOrderOf(loaders', loaders) && OrderSafe(loaders)
    requires i < |loaders| && i' < |loaders'| && r in FieldsOf(loaders[i]) && r in FieldsOf(loaders'[i'])
    requires Resolve(AllClasses(loaders), r.owner).Some?
    ensures TargetRecord(AllClasses(loaders), loaders, i, r) == TargetRecord(AllClasses(loaders'), loaders', i', r)
  {
    var classes, classes' := AllClasses(loaders), AllClasses(loaders');
    SameRecords(loaders, loaders');
    OwnedOrderFree(loaders, loaders');
    LinksOrderFree(loaders, loaders');
    OrderSafeOrderFree(loaders, loaders');
    TargetRecordIs(loaders, i, r);
    TargetRecordIs(loaders', i', r);
    var link := ResolveLink(classes, r);
    if link.Some? && r.target.Some? {
      SameFindings(TargetRecord(classes, loaders, i, r), TargetRecord(classes', loaders', i', r), link.value);
    }
  }

  lemma SameFindings(found: Option<(string, FieldRecord)>, found': Option<(string, FieldRecord)>, link: string)
    requires forall g :: found == Some((link, g)) <==> found' == Some((link, g))
    requires found.Some? ==> found.value.0 == link
    requires found'.Some? ==> found'.value.0 == link
    ensures found == found'
  {
    assert found.Some? ==> found == Some((link, found.value.1));
    assert found'.Some? ==> found' == Some((link, found'.value.1));
  }

  // ---------------------------------------------------------------- where the order does matter

  function Without(loaders: seq<MetaLoader>, l: MetaLoader): (rest: seq<MetaLoader>)
    ensures forall m :: m in rest <==> m in loaders && m != l
  {
    if loaders == [] then []
    else
      assert loaders == [loaders[0]] + loaders[1..];
      if loaders[0] == l then Without(loaders[1..], l) else [loaders[0]] + Without(loaders[1..], l)
  }

  lemma {:induction false} WithoutDistinct(loaders: seq<MetaLoader>, l: MetaLoader)
    requires NoDuplicates(loaders)
    ensures NoDuplicates(Without(loaders, l))
  {
    if loaders != [] {
      var x, rest := loaders[0], loaders[1..];
      forall k | 0 <= k < |rest| ensures rest[k] != x {
        assert rest[k] == loaders[k + 1];
      }
      assert forall i, j | 0 <= i < j < |rest| :: rest[i] == loaders[i + 1] && rest[j] == loaders[j + 1];
      WithoutDistinct(rest, l);
      DistinctCons(x, Without(rest, l));
    }
  }

  lemma DistinctCons(x: MetaLoader, rest: seq<MetaLoader>)
    requires x !in rest && NoDuplicates(rest)
    ensures NoDuplicates([x] + rest)
  {}

  function First(loaders: seq<MetaLoader>, l: MetaLoader): seq<MetaLoader> {
    [l] + Without(loaders, l)
  }

  function Last(loaders: seq<MetaLoader>, l: MetaLoader): seq<MetaLoader> {
    Without(loaders, l) + [l]
  }

  lemma FirstAndLastAreOrders(loaders: seq<MetaLoader>, l: MetaLoader)
    requires NoDuplicates(loaders) && l in loaders
    ensures IsOrderOf(First(loaders, l), loaders) && IsOrderOf(Last(loaders, l), loaders)
  {
    WithoutDistinct(loaders, l);
  }

  /** A contested target is found when the record's loader comes last, and not when it comes first. */
  lemma ContestedDiffers(loaders: seq<MetaLoader>, l: MetaLoader, r: FieldRecord)
    requires Distinct(loaders) && Contested(loaders, l, r)
    ensures var first, last := First(loaders, l), Last(loaders, l);
            && TargetRecord(AllClasses(first), first, 0, r).None?
            && TargetRecord(AllClasses(last), last, |last| - 1, r).Some?
  {
    FirstAndLastAreOrders(loaders, l);
    ContestedFirst(loaders, First(loaders, l), l, r);
    ContestedLast(loaders, Last(loaders, l), l, r);
  }

  lemma ContestedFirst(loaders: seq<MetaLoader>, first: seq<MetaLoader>, l: MetaLoader, r: FieldRecord)
    requires Distinct(loaders) && Contested(loaders, l, r) && IsOrderOf(first, loaders)
    ensures TargetRecord(AllClasses(first), first, 0, r).None?
  {
    ContestedOrderFree(loaders, first, l, r);
    var classes := AllClasses(first);
    assert first[..0] == [] && AllFields(first[..0]) == [];
    BackReferenceResolvesIff(classes, first, 0, r, r.kind.BackReference?);
  }

  lemma ContestedLast(loaders: seq<MetaLoader>, last: seq<MetaLoader>, l: MetaLoader, r: FieldRecord)
    requires Distinct(loaders) && Contested(loaders, l, r) && IsOrderOf(last, loaders) && last != []
             && last[|last| - 1] == l
    ensures TargetRecord(AllClasses(last), last, |last| - 1, r).Some?
  {
    ContestedOrderFree(loaders, last, l, r);
    var m, g := Rival(last, l, r);
    RivalIsEarlier(AllClasses(last), last, l, r, m, g);
  }

  lemma RivalIsEarlier(classes: seq<ClassRecord>, last: seq<MetaLoader>, l: MetaLoader, r: FieldRecord,
                       m: MetaLoader, g: FieldRecord)
    requires last != [] && last[|last| - 1] == l && m in last && m != l && g in FieldsOf(m)
    requires ResolveLink(classes, r).Some? && r.target.Some?
    requires Matches(classes, g, ResolveLink(classes, r).value, r.target.value, r.kind.BackReference?)
    ensures TargetRecord(classes, last, |last| - 1, r).Some?
  {
    InFront(last, m);
    AllFieldsHave(last[..|last| - 1], m, g);
    MatchedEarlier(classes, last, |last| - 1, r, ResolveLink(classes, r).value, g);
  }

  lemma InFront(loaders: seq<MetaLoader>, m: MetaLoader)
    requires loaders != [] && m in loaders && m != loaders[|loaders| - 1]
    ensures m in loaders[..|loaders| - 1]
  {
    assert loaders == loaders[..|loaders| - 1] + [loaders[|loaders| - 1]];
  }

  lemma Rival(loaders: seq<MetaLoader>, l: MetaLoader, r: FieldRecord) returns (m: MetaLoader, g: FieldRecord)
    requires Contested(loaders, l, r)
    ensures m in loaders && m != l && g in FieldsOf(m)
    ensures var classes := AllClasses(loaders);
            Matches(classes, g, ResolveLink(classes, r).value, r.target.value, r.kind.BackReference?)
  {
    m, g :| m in loaders && m != l && g in FieldsOf(m)
            && Matches(AllClasses(loaders), g, ResolveLink(AllClasses(loaders), r).value, r.target.value,
                       r.kind.BackReference?);
  }

  lemma MatchedEarlier(classes: seq<ClassRecord>, loaders: seq<MetaLoader>, i: nat, r: FieldRecord, link: string,
                       g: FieldRecord)
    requires i <= |loaders| && ResolveLink(classes, r) == Some(link) && r.target.Some?
    requires g in AllFields(loaders[..i]) && Matches(classes, g, link, r.target.value, r.kind.BackReference?)
    ensures TargetRecord(classes, loaders, i, r).Some?
  {
    BackReferenceResolvesIff(classes, loaders, i, r, r.kind.BackReference?);
  }

  /** In two orders of the loaders a record that joins a class finds the same target. */
  ghost predicate FoundAlike(a: seq<MetaLoader>, i: nat, b: seq<MetaLoader>, j: nat, r: FieldRecord) {
    i < |a| && j < |b| && a[i] == b[j] && r in FieldsOf(a[i]) && Resolve(AllClasses(a), r.owner).Some? ==>
      TargetRecord(AllClasses(a), a, i, r) == TargetRecord(AllClasses(b), b, j, r)
  }

  ghost predicate ResolvesAlike(loaders: seq<MetaLoader>) {
    forall a, b, i, j, r | IsOrderOf(a, loaders) && IsOrderOf(b, loaders) :: FoundAlike(a, i, b, j, r)
  }

  lemma UncontestedAlike(loaders: seq<MetaLoader>, a: seq<MetaLoader>, i: nat, b: seq<MetaLoader>, j: nat,
                         r: FieldRecord)
    requires OrderSafe(loaders) && IsOrderOf(a, loaders) && IsOrderOf(b, loaders)
    ensures FoundAlike(a, i, b, j, r)
  {
    OrderSafeOrderFree(loaders, a);
    if i < |a| && j < |b| && a[i] == b[j] && r in FieldsOf(a[i]) && Resolve(AllClasses(a), r.owner).Some? {
      BackReferencesOrderFree(a, b, i, j, r);
    }
  }

  lemma ContestedNotAlike(loaders: seq<MetaLoader>, first: seq<MetaLoader>, last: seq<MetaLoader>, l: MetaLoader,
                          r: FieldRecord)
    requires Distinct(loaders) && Contested(loaders, l, r) && IsOrderOf(first, loaders) && IsOrderOf(last, loaders)
    requires first != [] && first[0] == l && last != [] && last[|last| - 1] == l
    ensures !FoundAlike(first, 0, last, |last| - 1, r)
  {
    LinksOrderFree(loaders, first);
    ContestedFirst(loaders, first, l, r);
    ContestedLast(loaders, last, l, r);
  }

  /** Every target resolves the same in every order of the loaders if and only if none is contested. */
  lemma OrderImmaterialIff(loaders: seq<MetaLoader>)
    requires Distinct(loaders)
    ensures ResolvesAlike(loaders) <==> Uncontested(loaders)
  {
    if Uncontested(loaders) {
      forall a, b, i: nat, j: nat, r | IsOrderOf(a, loaders) && IsOrderOf(b, loaders)
        ensures FoundAlike(a, i, b, j, r)
      {
        UncontestedAlike(loaders, a, i, b, j, r);
      }
    }
    if l, r :| Contested(loaders, l, r) {
      ContestedShows(loaders, l, r);
    }
  }

  lemma ContestedShows(loaders: seq<MetaLoader>, l: MetaLoader, r: FieldRecord)
    requires Distinct(loaders) && Contested(loaders, l, r)
    ensures !ResolvesAlike(loaders)
  {
    var first, last := First(loaders, l), Last(loaders, l);
    FirstAndLastAreOrders(loaders, l);
    ContestedNotAlike(loaders, first, last, l, r);
  }

  /** A dynamic class whose back reference targets, by id, a back reference of a class of static content. */
  const EXAMPLE_DYNAMIC :=
    DynamicContentLoader("db", [("1", "c", "t")], [DynamicField("10", "1", "r", BackReference, Some("2"), Some("11"))])

  const EXAMPLE_STATIC :=
    StaticContentLoader([StaticContent("2", "s", "u", "db", [FieldBuilder("11", "g", BackReference, None, None)])])

  const EXAMPLE_LOADERS := [EXAMPLE_DYNAMIC, EXAMPLE_STATIC]

  const EXAMPLE_RECORD := FieldRecord("10", ById("1"), "r", BackReference, Some(ById("2")), Some(ById("11")), true)

  const EXAMPLE_TARGET := FieldRecord("11", ByCode("s"), "g", BackReference, None, None, false)

  const EXAMPLE_CLASSES := [ClassRecord("1", "c", "t", "db"), ClassRecord("2", "s", "u", "db")]

  lemma ExampleStatic()
    ensures FieldsOf(EXAMPLE_STATIC) == [EXAMPLE_TARGET]
    ensures ClassesOf(EXAMPLE_STATIC) == [EXAMPLE_CLASSES[1]] && ClassesOf(EXAMPLE_DYNAMIC) == [EXAMPLE_CLASSES[0]]
  {
    var statics := EXAMPLE_STATIC.statics;
    assert statics[1..] == [] && StaticRecords([]) == [];
    assert BuilderRecords("s", statics[0].builders) == [EXAMPLE_TARGET];
  }

  lemma ExampleRecords()
    ensures FieldsOf(EXAMPLE_DYNAMIC) == [EXAMPLE_RECORD] && FieldsOf(EXAMPLE_STATIC) == [EXAMPLE_TARGET]
    ensures AllFields(EXAMPLE_LOADERS) == [EXAMPLE_RECORD, EXAMPLE_TARGET]
    ensures AllClasses(EXAMPLE_LOADERS) == EXAMPLE_CLASSES
  {
    var one := [EXAMPLE_DYNAMIC];
    ExampleStatic();
    assert EXAMPLE_LOADERS[..1] == one && one[..0] == [];
    assert AllFields(one) == [EXAMPLE_RECORD];
    assert AllClasses(one) == [EXAMPLE_CLASSES[0]];
  }

  lemma ExampleMatches()
    ensures Resolve(EXAMPLE_CLASSES, ById("1")) == Some("1") && Resolve(EXAMPLE_CLASSES, ById("2")) == Some("2")
    ensures OwnedBy(EXAMPLE_CLASSES, EXAMPLE_RECORD, "1") && OwnedBy(EXAMPLE_CLASSES, EXAMPLE_TARGET, "2")
    ensures Matches(EXAMPLE_CLASSES, EXAMPLE_TARGET, "2", ById("11"), true)
    ensures DistinctClasses(EXAMPLE_CLASSES)
  {
    assert "1"[0] != "2"[0] && "c"[0] != "s"[0];
    assert EXAMPLE_CLASSES[..1] == [EXAMPLE_CLASSES[0]];
  }

  lemma ExampleDistinct()
    ensures Distinct(EXAMPLE_LOADERS) && HeldApart(EXAMPLE_LOADERS)
  {
    ExampleRecords();
    ExampleMatches();
    assert "10"[1] != "11"[1] && "r"[0] != "g"[0];
  }

  lemma ExampleContested()
    ensures Contested(EXAMPLE_LOADERS, EXAMPLE_DYNAMIC, EXAMPLE_RECORD)
  {
    ExampleRecords();
    ExampleMatches();
    assert EXAMPLE_STATIC in EXAMPLE_LOADERS && EXAMPLE_TARGET in FieldsOf(EXAMPLE_STATIC);
  }

  /** The order of the one dynamic and the one static loader shows: the field resolves in one order only. */
  lemma ContestedExample()
    ensures Distinct(EXAMPLE_LOADERS) && HeldApart(EXAMPLE_LOADERS)
    ensures Contested(EXAMPLE_LOADERS, EXAMPLE_DYNAMIC, EXAMPLE_RECORD) && !ResolvesAlike(EXAMPLE_LOADERS)
  {
    ExampleDistinct();
    ExampleContested();
    ContestedShows(EXAMPLE_LOADERS, EXAMPLE_DYNAMIC, EXAMPLE_RECORD);
  }

  // ---------------------------------------------------------------- the whole graph in any order

  /**
   * What a reader of the graph sees of a field: itself, its owner, the class it links to, the field it refers
   * back to.
   */
  datatype Shape = Shape(
    id: string,
    code: string,
    kind: FieldType,
    owner: Option<string>,
    link: Option<string>,
    back: Option<(string, string, FieldType)>)

  function IdOf(c: MetaClass?): Option<string> {
    if c == null then None else Some(c.id)
  }

  function ShapeOf(f: MetaField): Shape {
    var back := f.backReferenceField;
    Shape(f.id, f.code, f.kind, IdOf(f.owner), IdOf(f.linkToMetaClass),
          if back == null then None else Some((back.id, back.code, back.kind)))
  }

  function ShapeFor(classes: seq<ClassRecord>, loaders: seq<MetaLoader>, s: Source, cls: string): Shape
    requires s.loader <= |loaders|
  {
    var found := TargetRecord(classes, loaders, s.loader, s.r);
    Shape(s.r.id, s.r.code, s.r.kind, Some(cls), ResolveLink(classes, s.r),
          if found.None? then None else Some((found.value.1.id, found.value.1.code, found.value.1.kind)))
  }

  /** The class objects answer for their ids, and every resolvable reference has one. */
  ghost predicate Complete(byId: ClassesById, classes: seq<ClassRecord>) {
    && (forall id | id in byId :: byId[id].id == id)
    && forall ref :: Resolve(classes, ref).Some? ==> Resolve(classes, ref).value in byId
  }

  lemma ObjectsComplete(result: seq<MetaClass>, byId: ClassesById, classes: seq<ClassRecord>)
    requires Objects(result, byId, classes)
    ensures Complete(byId, classes)
  {
    forall ref | Resolve(classes, ref).Some? ensures Resolve(classes, ref).value in byId {
      ResolveFinds(classes, ref);
    }
  }

  lemma BuiltShape(byId: ClassesById, lists: Lists, classes: seq<ClassRecord>, loaders: seq<MetaLoader>,
                   f: MetaField, cls: string, s: Source, second: bool)
    requires Stage(byId, lists, classes, loaders, |loaders|, true) && Complete(byId, classes) && cls in byId
    requires IsBuilt(byId, lists, classes, loaders, f, cls, s, second) && InPass(s.r, second)
    ensures ShapeOf(f) == ShapeFor(classes, loaders, s, cls)
  {
    var link, k := ResolveLink(classes, s.r), TargetIndex(classes, loaders, s.loader, s.r, second);
    if k.Some? {
      SeenIsPrefix(classes, loaders, s.loader, link.value, second);
      var final := Final(classes, loaders, link.value);
      assert final[k.value] == Seen(classes, loaders, s.loader, link.value, second)[k.value];
      assert Mirrors(lists[link.value], final);
      assert IsRecord(f.backReferenceField, final[k.value]);
    }
  }

  lemma FieldHasSource(byId: ClassesById, lists: Lists, classes: seq<ClassRecord>, loaders: seq<MetaLoader>,
                       cls: string, p: nat) returns (s: Source, second: bool)
    requires cls in lists && p < |lists[cls]| && ListBuilt(byId, lists, classes, loaders, cls)
    ensures IsBuilt(byId, lists, classes, loaders, lists[cls][p], cls, s, second)
    ensures s in OwnSources(classes, loaders, |loaders|, cls, second)
  {
    var first := OwnSources(classes, loaders, |loaders|, cls, false);
    second := p >= |first|;
    if second {
      s := BuiltElement(byId, lists, classes, loaders, lists[cls][|first|..], cls,
                        OwnSources(classes, loaders, |loaders|, cls, true), true, p - |first|);
    } else {
      s := BuiltElement(byId, lists, classes, loaders, lists[cls][..|first|], cls, first, false, p);
    }
  }

  lemma BuiltElement(byId: ClassesById, lists: Lists, classes: seq<ClassRecord>, loaders: seq<MetaLoader>,
                     fields: seq<MetaField>, cls: string, sources: seq<Source>, second: bool,
                     j: nat) returns (s: Source)
    requires AllBuilt(byId, lists, classes, loaders, fields, cls, sources, second) && j < |fields|
    ensures s in sources && IsBuilt(byId, lists, classes, loaders, fields[j], cls, s, second)
  {
    s := sources[j];
    assert IsBuilt(byId, lists, classes, loaders, fields[j], cls, sources[j], second);
  }

  lemma SourceHasField(byId: ClassesById, lists: Lists, classes: seq<ClassRecord>, loaders: seq<MetaLoader>,
                       fields: seq<MetaField>, cls: string, sources: seq<Source>, second: bool,
                       s: Source) returns (f: MetaField)
    requires AllBuilt(byId, lists, classes, loaders, fields, cls, sources, second) && s in sources
    ensures f in fields && IsBuilt(byId, lists, classes, loaders, f, cls, s, second)
  {
    var j :| 0 <= j < |sources| && sources[j] == s;
    f := fields[j];
    assert IsBuilt(byId, lists, classes, loaders, fields[j], cls, sources[j], second);
  }

  lemma SourceIsOwned(classes: seq<ClassRecord>, loaders: seq<MetaLoader>, cls: string, second: bool, r: FieldRecord)
    ensures (exists s | s in OwnSources(classes, loaders, |loaders|, cls, second) :: s.r == r) <==>
            r in AllFields(loaders) && OwnedBy(classes, r, cls) && InPass(r, second)
  {
    OwnSourcesAreOwn(classes, loaders, |loaders|, cls, second);
    assert loaders[..|loaders|] == loaders;
    OwnMembers(classes, AllFields(loaders), cls, second, r);
    RecordsMembers(OwnSources(classes, loaders, |loaders|, cls, second), r);
  }

  lemma RecordsMembers(sources: seq<Source>, r: FieldRecord)
    ensures r in Records(sources) <==> exists s | s in sources :: s.r == r
  {
    var records := Records(sources);
    if r in records {
      var j :| 0 <= j < |records| && records[j] == r;
      assert sources[j] in sources && sources[j].r == r;
    }
    if s :| s in sources && s.r == r {
      var j :| 0 <= j < |sources| && sources[j] == s;
      assert records[j] == r;
    }
  }

  /** The linked class exists and owns a field, not a back reference, that answers the target. */
  ghost predicate TargetExists(classes: seq<ClassRecord>, loaders: seq<MetaLoader>, r: FieldRecord) {
    && ResolveLink(classes, r).Some? && r.target.Some?
    && exists g | g in AllFields(loaders) :: Matches(classes, g, ResolveLink(classes, r).value, r.target.value, false)
  }

  /**
   * In the initialised graph every back reference whose target is an existing field other than a back
   * reference points to the very object in the linked class's list, and that object answers the target.
   */
  lemma BackReferencePointsIntoList(result: seq<MetaClass>, byId: ClassesById, lists: Lists,
                                    classes: seq<ClassRecord>, loaders: seq<MetaLoader>, cls: string,
                                    p: nat) returns (r: FieldRecord)
    requires Objects(result, byId, classes) && Initialised(byId, lists, classes, loaders)
    requires cls in lists && p < |lists[cls]| && lists[cls][p].kind.BackReference?
    ensures r in AllFields(loaders) && OwnedBy(classes, r, cls)
    ensures cls in byId && IsRecord(lists[cls][p], r) && lists[cls][p].owner == byId[cls]
    ensures TargetExists(classes, loaders, r) ==>
              var link := ResolveLink(classes, r).value;
              && link in byId && link in lists
              && PointsIntoList(byId, lists, lists[cls][p], Final(classes, loaders, link), link, r.target.value)
  {
    ObjectsComplete(result, byId, classes);
    assert ListBuilt(byId, lists, classes, loaders, cls);
    var s, second := FieldHasSource(byId, lists, classes, loaders, cls, p);
    r := s.r;
    SourceIsOwned(classes, loaders, cls, second, r);
    if TargetExists(classes, loaders, r) {
      var link, target := ResolveLink(classes, r).value, r.target.value;
      var g :| g in AllFields(loaders) && Matches(classes, g, link, target, false);
      BuiltPointsIntoList(byId, lists, classes, loaders, lists[cls][p], cls, s, link, target, g);
    }
  }

  ghost predicate HasShape(fields: seq<MetaField>, shape: Shape) {
    exists f | f in fields :: ShapeOf(f) == shape
  }

  /** A source stands for a record of the loader it names. */
  lemma {:induction false} SourceFromLoader(classes: seq<ClassRecord>, loaders: seq<MetaLoader>, n: nat, cls: string,
                                            second: bool, s: Source)
    requires n <= |loaders| && s in OwnSources(classes, loaders, n, cls, second)
    ensures s.loader < n && s.r in FieldsOf(loaders[s.loader])
  {
    var front, records := OwnSources(classes, loaders, n - 1, cls, second), FieldsOf(loaders[n - 1]);
    InAppended(front, Own(classes, records, cls, second), n - 1, s);
    if s in front {
      SourceFromLoader(classes, loaders, n - 1, cls, second, s);
    } else {
      OwnMembers(classes, records, cls, second, s.r);
    }
  }

  lemma InAppended(front: seq<Source>, own: seq<FieldRecord>, loader: nat, s: Source)
    requires s in front + From(own, loader)
    ensures s in front || (s.loader == loader && s.r in own)
  {
    if s !in front {
      var k :| 0 <= k < |own| && From(own, loader)[k] == s;
    }
  }

  /** What an initialisation leaves behind: the class objects, their index by id, and their field lists. */
  datatype Graph = Graph(objects: seq<MetaClass>, byId: ClassesById, lists: Lists)

  ghost predicate IsGraphOf(g: Graph, loaders: seq<MetaLoader>) {
    && Objects(g.objects, g.byId, AllClasses(loaders))
    && Initialised(g.byId, g.lists, AllClasses(loaders), loaders)
  }

  /** Every field of a class is that of a record the class owns, as the record's loader found its target. */
  lemma ShapeHasSource(g: Graph, loaders: seq<MetaLoader>, cls: string, shape: Shape) returns (s: Source)
    requires IsGraphOf(g, loaders) && cls in g.lists && HasShape(g.lists[cls], shape)
    ensures s.loader < |loaders| && s.r in FieldsOf(loaders[s.loader]) && OwnedBy(AllClasses(loaders), s.r, cls)
    ensures s.r in AllFields(loaders) && shape == ShapeFor(AllClasses(loaders), loaders, s, cls)
  {
    var classes := AllClasses(loaders);
    var p :| 0 <= p < |g.lists[cls]| && ShapeOf(g.lists[cls][p]) == shape;
    var second;
    ObjectsComplete(g.objects, g.byId, classes);
    assert ListBuilt(g.byId, g.lists, classes, loaders, cls);
    s, second := FieldHasSource(g.byId, g.lists, classes, loaders, cls, p);
    SourceIsOwned(classes, loaders, cls, second, s.r);
    SourceFromLoader(classes, loaders, |loaders|, cls, second, s);
    BuiltShape(g.byId, g.lists, classes, loaders, g.lists[cls][p], cls, s, second);
  }

  /** And every record a class owns has its field. */
  lemma RecordHasShape(g: Graph, loaders: seq<MetaLoader>, cls: string, r: FieldRecord) returns (s: Source)
    requires IsGraphOf(g, loaders) && cls in g.lists && r in AllFields(loaders) && OwnedBy(AllClasses(loaders), r, cls)
    ensures s.r == r && s.loader < |loaders| && r in FieldsOf(loaders[s.loader])
    ensures HasShape(g.lists[cls], ShapeFor(AllClasses(loaders), loaders, s, cls))
  {
    var classes, second := AllClasses(loaders), r.kind.BackReference?;
    ObjectsComplete(g.objects, g.byId, classes);
    assert ListBuilt(g.byId, g.lists, classes, loaders, cls);
    SourceIsOwned(classes, loaders, cls, second, r);
    s :| s in OwnSources(classes, loaders, |loaders|, cls, second) && s.r == r;
    SourceFromLoader(classes, loaders, |loaders|, cls, second, s);
    var start := |OwnSources(classes, loaders, |loaders|, cls, false)|;
    var half := if second then g.lists[cls][start..] else g.lists[cls][..start];
    var f := SourceHasField(g.byId, g.lists, classes, loaders, half, cls,
                            OwnSources(classes, loaders, |loaders|, cls, second), second, s);
    assert f in g.lists[cls];
    BuiltShape(g.byId, g.lists, classes, loaders, f, cls, s, second);
  }

  lemma ShapeKept(g: Graph, loaders: seq<MetaLoader>, g': Graph, loaders': seq<MetaLoader>, cls: string, shape: Shape)
    requires IsOrderOf(loaders', loaders) && NoDuplicates(loaders) && OrderSafe(loaders)
    requires IsGraphOf(g, loaders) && IsGraphOf(g', loaders') && cls in g.lists && cls in g'.lists
    requires HasShape(g.lists[cls], shape)
    ensures HasShape(g'.lists[cls], shape)
  {
    SameRecords(loaders, loaders');
    OwnedOrderFree(loaders, loaders');
    LinksOrderFree(loaders, loaders');
    var s := ShapeHasSource(g, loaders, cls, shape);
    var s' := RecordHasShape(g', loaders', cls, s.r);
    BackReferencesOrderFree(loaders, loaders', s.loader, s'.loader, s.r);
  }

  lemma SameClasses(g: Graph, loaders: seq<MetaLoader>, g': Graph, loaders': seq<MetaLoader>)
    requires SameLoaders(loaders, loaders') && IsGraphOf(g, loaders) && IsGraphOf(g', loaders')
    ensures g.lists.Keys == g'.lists.Keys
  {
    SameRecords(loaders, loaders');
    assert g.lists.Keys == g.byId.Keys && g'.lists.Keys == g'.byId.Keys;
  }

  /**
   * Where no target is contested, two initialisations over the same loaders, each in its own order, give
   * every class the same fields with the same owners, links and resolved back references.
   */
  lemma GraphOrderFree(g: Graph, loaders: seq<MetaLoader>, g': Graph, loaders': seq<MetaLoader>, cls: string,
                       shape: Shape)
    requires IsOrderOf(loaders', loaders) && OrderSafe(loaders)
    requires IsGraphOf(g, loaders) && IsGraphOf(g', loaders')
    ensures cls in g.lists <==> cls in g'.lists
    ensures cls in g.lists ==> (HasShape(g.lists[cls], shape) <==> HasShape(g'.lists[cls], shape))
  {
    SameClasses(g, loaders, g', loaders');
    OrderSafeOrderFree(loaders, loaders');
    if cls in g.lists && HasShape(g.lists[cls], shape) {
      ShapeKept(g, loaders, g', loaders', cls, shape);
    }
    if cls in g.lists && HasShape(g'.lists[cls], shape) {
      ShapeKept(g', loaders', g, loaders, cls, shape);
    }
  }

  /** No record is held by two loaders. */
  ghost predicate HeldApart(loaders: seq<MetaLoader>) {
    forall l, m, r | l in loaders && m in loaders && r in FieldsOf(l) && r in FieldsOf(m) :: l == m
  }

  lemma OnlyHolder(loaders: seq<MetaLoader>, i: nat, j: nat, r: FieldRecord)
    requires HeldApart(loaders) && NoDuplicates(loaders) && i < |loaders| && j < |loaders|
    requires r in FieldsOf(loaders[i]) && r in FieldsOf(loaders[j])
    ensures i == j
  {
    assert loaders[i] in loaders && loaders[j] in loaders;
  }

  lemma HeldApartOrderFree(loaders: seq<MetaLoader>, loaders': seq<MetaLoader>)
    requires SameLoaders(loaders, loaders') && HeldApart(loaders)
    ensures HeldApart(loaders')
  {}

  /**
   * In a graph over an order, the field of a record the class owns has the target that the record's one loader
   * found.
   */
  lemma ShapeOfRecord(g: Graph, loaders: seq<MetaLoader>, cls: string, i: nat, r: FieldRecord, shape: Shape)
    requires Distinct(loaders) && HeldApart(loaders) && IsGraphOf(g, loaders) && cls in g.lists
    requires i < |loaders| && r in FieldsOf(loaders[i]) && OwnedBy(AllClasses(loaders), r, cls) && shape.id == r.id
    ensures HasShape(g.lists[cls], shape) <==> shape == ShapeFor(AllClasses(loaders), loaders, Source(r, i), cls)
  {
    assert loaders[i] in loaders;
    AllFieldsHave(loaders, loaders[i], r);
    var s := RecordHasShape(g, loaders, cls, r);
    OnlyHolder(loaders, i, s.loader, r);
    if HasShape(g.lists[cls], shape) {
      var s' := ShapeHasSource(g, loaders, cls, shape);
      assert s'.r == r;
      OnlyHolder(loaders, i, s'.loader, r);
    }
  }

  /**
   * Where a target is contested the order shows: in a graph whose order has the record's loader last the
   * owning class has a field that it has in no graph whose order has the loader first.
   */
  lemma GraphOrderMatters(loaders: seq<MetaLoader>, l: MetaLoader, r: FieldRecord,
                          g: Graph, first: seq<MetaLoader>, g': Graph, last: seq<MetaLoader>)
    requires Distinct(loaders) && HeldApart(loaders) && Contested(loaders, l, r)
    requires IsOrderOf(first, loaders) && first != [] && first[0] == l && IsGraphOf(g, first)
    requires IsOrderOf(last, loaders) && last != [] && last[|last| - 1] == l && IsGraphOf(g', last)
    ensures var cls := Resolve(AllClasses(loaders), r.owner).value;
            && cls in g.lists && cls in g'.lists
            && exists shape :: HasShape(g'.lists[cls], shape) && !HasShape(g.lists[cls], shape)
  {
    OwnerIsListed(loaders, first, l, r, g);
    OwnerIsListed(loaders, last, l, r, g');
    ContestedFirst(loaders, first, l, r);
    ContestedLast(loaders, last, l, r);
    ShapesDiffer(g, first, 0, g', last, |last| - 1, Resolve(AllClasses(loaders), r.owner).value, r);
  }

  lemma ShapesDiffer(g: Graph, a: seq<MetaLoader>, i: nat, g': Graph, b: seq<MetaLoader>, j: nat, cls: string,
                     r: FieldRecord)
    requires Distinct(a) && HeldApart(a) && IsGraphOf(g, a) && Distinct(b) && HeldApart(b) && IsGraphOf(g', b)
    requires cls in g.lists && OwnedBy(AllClasses(a), r, cls) && i < |a| && r in FieldsOf(a[i])
    requires cls in g'.lists && OwnedBy(AllClasses(b), r, cls) && j < |b| && r in FieldsOf(b[j])
    requires TargetRecord(AllClasses(a), a, i, r).None? && TargetRecord(AllClasses(b), b, j, r).Some?
    ensures exists shape :: HasShape(g'.lists[cls], shape) && !HasShape(g.lists[cls], shape)
  {
    var shape := ShapeFor(AllClasses(b), b, Source(r, j), cls);
    ShapeOfRecord(g', b, cls, j, r, shape);
    ShapeOfRecord(g, a, cls, i, r, shape);
  }

  lemma OwnerIsListed(loaders: seq<MetaLoader>, order: seq<MetaLoader>, l: MetaLoader, r: FieldRecord, g: Graph)
    requires Distinct(loaders) && HeldApart(loaders) && Contested(loaders, l, r)
    requires IsOrderOf(order, loaders) && IsGraphOf(g, order)
    ensures var cls := Resolve(AllClasses(loaders), r.owner).value;
            cls in g.lists && OwnedBy(AllClasses(order), r, cls) && Distinct(order) && HeldApart(order)
  {
    LinksOrderFree(loaders, order);
    DistinctOrderFree(loaders, order);
    HeldApartOrderFree(loaders, order);
    ObjectsComplete(g.objects, g.byId, AllClasses(order));
    assert g.lists.Keys == g.byId.Keys;
  }
}
