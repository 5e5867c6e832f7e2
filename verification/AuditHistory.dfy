/** The audit log of object changes, and the history of one object shown from it. */
module AuditHistory {
  import opened Wrappers
  import opened Values
  import opened StableSort
  import opened UniversalLink

  datatype Kind = Creation | Update | Deletion | Execution

  datatype Event = Event(kind: Kind, id: string, code: string, user: string, description: string)

  datatype Audit = Audit(date: int, kind: Kind, description: string, user: string, objectLink: Option<string>)

  /** One log row; a deletion is logged without a link. */
  function Entry(now: int, e: Event): Audit {
    Audit(now, e.kind, e.description, e.user, if e.kind.Deletion? then None else Some(Print(e.id, e.code)))
  }

  class AuditObjectChangeListener {
    var audits: seq<Audit>

    method OnObjectCreate(now: int, id: string, code: string, user: string, description: string)
      modifies this
      ensures audits == old(audits) + [Entry(now, Event(Creation, id, code, user, description))]
      ensures audits[|old(audits)|..] == [Audit(now, Creation, description, user, Some(id + "@" + code))]
    {
      audits := audits + [Audit(now, Creation, description, user, Some(id + "@" + code))];
    }

    method OnObjectUpdate(now: int, id: string, code: string, user: string, description: string)
      modifies this
      ensures audits == old(audits) + [Entry(now, Event(Update, id, code, user, description))]
      ensures audits[|old(audits)|..] == [Audit(now, Update, description, user, Some(id + "@" + code))]
    {
      audits := audits + [Audit(now, Update, description, user, Some(id + "@" + code))];
    }

    method OnObjectDelete(now: int, id: string, code: string, user: string, description: string)
      modifies this
      ensures audits == old(audits) + [Entry(now, Event(Deletion, id, code, user, description))]
      ensures audits[|old(audits)|..] == [Audit(now, Deletion, description, user, None)]
    {
      audits := audits + [Audit(now, Deletion, description, user, None)];
    }

    method OnObjectExecuted(now: int, id: string, code: string, user: string, description: string)
      modifies this
      ensures audits == old(audits) + [Entry(now, Event(Execution, id, code, user, description))]
      ensures audits[|old(audits)|..] == [Audit(now, Execution, description, user, Some(id + "@" + code))]
    {
      audits := audits + [Audit(now, Execution, description, user, Some(id + "@" + code))];
    }
  }

  // ---------------------------------------------------------------- showing the history

  /** `fetchByObjectLink`. */
  function Fetch(audits: seq<Audit>, link: string): seq<Audit> {
    if audits == [] then []
    else Fetch(audits[..|audits| - 1],
               link) + if audits[|audits| - 1].objectLink == Some(link) then [audits[|audits| - 1]] else []
  }

  function CompareDates(a: Audit, b: Audit): int {
    if a.date < b.date then -1 else if a.date > b.date then 1 else 0
  }

  datatype Message = Message(date: int, user: string, description: string)

  function MessageOf(a: Audit): Message {
    Message(a.date, a.user, a.description)
  }

  function MessagesOf(audits: seq<Audit>): (m: seq<Message>)
    ensures |m| == |audits| && forall k | 0 <= k < |m| :: m[k] == MessageOf(audits[k])
  {
    seq(|audits|, k requires 0 <= k < |audits| => MessageOf(audits[k]))
  }

  /** `Collections.reverse`. */
  function Reversed<T>(s: seq<T>): (r: seq<T>)
    ensures |r| == |s| && forall k | 0 <= k < |r| :: r[k] == s[|s| - 1 - k]
  {
    seq(|s|, k requires 0 <= k < |s| => s[|s| - 1 - k])
  }

  datatype Report = NothingFound | History(messages: seq<Message>)

  function Execute(audits: seq<Audit>, code: string, id: string): Report {
    var own := Fetch(audits, Print(id, code));
    if own == [] then NothingFound
    else History(Reversed(MessagesOf(Sort(CompareDates, own))))
  }

  // ---------------------------------------------------------------- what it shows

  datatype Step = Step(now: int, event: Event)

  function Log(run: seq<Step>): seq<Audit> {
    if run == [] then []
    else Log(run[..|run| - 1]) + [Entry(run[|run| - 1].now, run[|run| - 1].event)]
  }

  /** The steps of one object, deletions apart. */
  function OwnSteps(run: seq<Step>, id: string, code: string): seq<Step> {
    if run == [] then []
    else
      var e := run[|run| - 1].event;
      OwnSteps(run[..|run| - 1], id, code)
      + if e.id == id && e.code == code && !e.kind.Deletion? then [run[|run| - 1]] else []
  }

  /** Each step of the object that is no deletion, as often as it happened, and no other. */
  lemma {:induction false} OwnStepsMembers(run: seq<Step>, id: string, code: string, s: Step)
    ensures multiset(OwnSteps(run, id, code))[s] ==
            if s.event.id == id && s.event.code == code && s.event.kind != Deletion then multiset(run)[s] else 0
  {
    if run != [] {
      OwnStepsMembers(run[..|run| - 1], id, code, s);
      assert run == run[..|run| - 1] + [run[|run| - 1]];
    }
  }

  /** The step's link, if it has one, does not pass for this object's. */
  predicate Clear(s: Step, id: string, code: string) {
    !s.event.kind.Deletion? && Print(s.event.id, s.event.code) == Print(id, code) ==>
      s.event.id == id && s.event.code == code
  }

  /** No link with another id or code prints as this one does. */
  predicate Unambiguous(run: seq<Step>, id: string, code: string) {
    forall s | s in run :: Clear(s, id, code)
  }

  /**
   * Every id logged with a link has come from a sequence or through `Long.valueOf`, so links never
   * pass for one another, whatever the class codes are.
   */
  predicate LinkedIdsRead(run: seq<Step>) {
    forall s | s in run && !s.event.kind.Deletion? :: ParseNum(LongKind, s.event.id).Ok?
  }

  lemma ReadIdsUnambiguous(run: seq<Step>, id: string, code: string)
    requires '@' !in id && LinkedIdsRead(run)
    ensures Unambiguous(run, id, code)
  {
    forall s | s in run ensures Clear(s, id, code) {
      if !s.event.kind.Deletion? {
        ParsedIsPlain(LongKind, s.event.id);
        PrintInjective(s.event.id, s.event.code, id, code);
      }
    }
  }

  lemma FetchedStep(front: seq<Step>, last: Step, id: string, code: string)
    ensures var fetched, own := Fetch(Log(front), Print(id, code)), OwnSteps(front, id, code);
            var fetched', own' := Fetch(Log(front + [last]), Print(id, code)), OwnSteps(front + [last], id, code);
            && (|fetched| == |own| && Clear(last, id, code) && fetched == Log(own) ==> fetched' == Log(own'))
            && (|fetched'| - |own'| == |fetched| - |own| + if Clear(last, id, code) then 0 else 1)
  {
    assert (front + [last])[..|front|] == front;
    LogNext(front, last);
    FetchNext(Log(front), Entry(last.now, last.event), Print(id, code));
    LogNext(OwnSteps(front, id, code), last);
    assert OwnSteps(front, id, code) + [] == OwnSteps(front, id, code);
    assert Fetch(Log(front), Print(id, code)) + [] == Fetch(Log(front), Print(id, code));
  }

  lemma {:induction false} FetchedCount(run: seq<Step>, id: string, code: string)
    ensures |OwnSteps(run, id, code)| <= |Fetch(Log(run), Print(id, code))|
    ensures Unambiguous(run, id, code) ==> Fetch(Log(run), Print(id, code)) == Log(OwnSteps(run, id, code))
    ensures !Unambiguous(run, id, code) ==> |OwnSteps(run, id, code)| < |Fetch(Log(run), Print(id, code))|
  {
    if run != [] {
      var front, last := run[..|run| - 1], run[|run| - 1];
      assert run == front + [last];
      FetchedCount(front, id, code);
      FetchedStep(front, last, id, code);
      LogLength(OwnSteps(front, id, code));
      assert Unambiguous(front + [last], id, code) <==> Unambiguous(front, id, code) && Clear(last, id, code);
    }
  }

  lemma FetchNext(audits: seq<Audit>, a: Audit, link: string)
    ensures Fetch(audits + [a], link) == Fetch(audits, link) + if a.objectLink == Some(link) then [a] else []
  {
    assert (audits + [a])[..|audits|] == audits;
  }

  lemma LogNext(run: seq<Step>, s: Step)
    ensures Log(run + [s]) == Log(run) + [Entry(s.now, s.event)]
  {
    assert (run + [s])[..|run|] == run;
  }

  lemma {:induction false} LogLength(run: seq<Step>)
    ensures |Log(run)| == |run| && forall k | 0 <= k < |run| :: Log(run)[k] == Entry(run[k].now, run[k].event)
  {
    if run != [] {
      LogLength(run[..|run| - 1]);
    }
  }

  /**
   * The entries fetched for an object are exactly its own entries, in order, if and only if no other
   * object in the log prints the same link.
   */
  lemma FetchIsOwnIff(run: seq<Step>, id: string, code: string)
    ensures Fetch(Log(run), Print(id, code)) == Log(OwnSteps(run, id, code)) <==> Unambiguous(run, id, code)
  {
    FetchedCount(run, id, code);
    LogLength(OwnSteps(run, id, code));
  }

  lemma DatesArePreorder(audits: seq<Audit>)
    ensures TotalPreorder(CompareDates, audits)
  {}

  /** Whatever the clock did, a history lists the fetched entries newest first. */
  lemma NewestFirst(audits: seq<Audit>, code: string, id: string)
    ensures var report, fetched := Execute(audits, code, id), Fetch(audits, Print(id, code));
            && (report.NothingFound? <==> fetched == [])
            && (report.History? ==>
                  && (exists sorted | IsStableSortOf(CompareDates, fetched, sorted) ::
                        report.messages == Reversed(MessagesOf(sorted)))
                  && forall j, k | 0 <= j < k < |report.messages| :: report.messages[j].date >= report.messages[k].date)
  {
    var fetched := Fetch(audits, Print(id, code));
    var sorted := Sort(CompareDates, fetched);
    DatesArePreorder(fetched);
    SortIsStable(CompareDates, fetched);
    ReversedDates(sorted);
  }

  lemma ReversedDates(sorted: seq<Audit>)
    requires Sorted(CompareDates, sorted)
    ensures var m := Reversed(MessagesOf(sorted)); forall j, k | 0 <= j < k < |m| :: m[j].date >= m[k].date
  {
    var m := Reversed(MessagesOf(sorted));
    forall j, k | 0 <= j < k < |m| ensures m[j].date >= m[k].date {
      ReversedPair(sorted, |sorted| - 1 - k, |sorted| - 1 - j);
    }
  }

  lemma ReversedPair(sorted: seq<Audit>, a: nat, b: nat)
    requires Sorted(CompareDates, sorted) && a < b < |sorted|
    ensures MessagesOf(sorted)[a].date <= MessagesOf(sorted)[b].date
  {
    assert CompareDates(sorted[a], sorted[b]) <= 0;
  }

  predicate ClockNonDecreasing(run: seq<Step>) {
    forall j, k | 0 <= j < k < |run| :: run[j].now <= run[k].now
  }

  lemma {:induction false} OwnStepsInOrder(run: seq<Step>, id: string, code: string)
    requires ClockNonDecreasing(run)
    ensures ClockNonDecreasing(OwnSteps(run, id, code))
    ensures forall s | s in OwnSteps(run, id, code) :: s in run
  {
    if run != [] {
      var front, last := run[..|run| - 1], run[|run| - 1];
      OwnStepsInOrder(front, id, code);
      forall s | s in front ensures s in run && s.now <= last.now {
        var k :| 0 <= k < |front| && front[k] == s;
        assert run[k] == s;
      }
    }
  }

  function Messages(steps: seq<Step>): (m: seq<Message>)
    ensures |m| == |steps|
    ensures forall k | 0 <= k < |m| :: m[k] == Message(steps[k].now, steps[k].event.user, steps[k].event.description)
  {
    seq(|steps|, k requires 0 <= k < |steps| => Message(steps[k].now, steps[k].event.user, steps[k].event.description))
  }

  lemma LogInOrder(steps: seq<Step>)
    requires ClockNonDecreasing(steps)
    ensures Sort(CompareDates, Log(steps)) == Log(steps) && MessagesOf(Log(steps)) == Messages(steps)
  {
    LogLength(steps);
    DatesArePreorder(Log(steps));
    SortOfSorted(CompareDates, Log(steps));
  }

  /**
   * Under a non-decreasing clock the history of an object whose link is its own is its events, latest
   * first and never a deletion; with none of them it reports that nothing was found.
   */
  lemma HistoryIsOwnEvents(run: seq<Step>, id: string, code: string)
    requires ClockNonDecreasing(run) && Unambiguous(run, id, code)
    ensures var own := OwnSteps(run, id, code);
            Execute(Log(run), code, id) == if own == [] then NothingFound else History(Reversed(Messages(own)))
  {
    FetchIsOwnIff(run, id, code);
    OwnStepsInOrder(run, id, code);
    LogInOrder(OwnSteps(run, id, code));
    LogLength(OwnSteps(run, id, code));
  }

  // ---------------------------------------------------------------- the history of an object, not of a text

  /** The linked steps that concern the object with the number: its id may have been sent as any text that reads so. */
  function ObjectSteps(run: seq<Step>, n: int, code: string): seq<Step> {
    if run == [] then []
    else
      var s := run[|run| - 1];
      ObjectSteps(run[..|run| - 1], n, code) + if Concerns(s, n, code) then [s] else []
  }

  predicate Concerns(s: Step, n: int, code: string) {
    !s.event.kind.Deletion? && ParseNum(LongKind, s.event.id) == Ok(n) && s.event.code == code
  }

  predicate SentAsPrinted(run: seq<Step>, n: int, code: string) {
    forall s | s in run && Concerns(s, n, code) :: s.event.id == ShowInt(n)
  }

  lemma OwnIsConcern(s: Step, n: int, code: string)
    requires InRange(LongKind, n)
    ensures s.event.id == ShowInt(n) && s.event.code == code && !s.event.kind.Deletion? <==>
            Concerns(s, n, code) && s.event.id == ShowInt(n)
  {
    ParseShowInt(LongKind, n);
  }

  lemma {:induction false} OwnStepsOfObject(run: seq<Step>, n: int, code: string)
    requires InRange(LongKind, n)
    ensures SentAsPrinted(run, n, code) ==> OwnSteps(run, ShowInt(n), code) == ObjectSteps(run, n, code)
    ensures |OwnSteps(run, ShowInt(n), code)| <= |ObjectSteps(run, n, code)|
    ensures !SentAsPrinted(run, n, code) ==> |OwnSteps(run, ShowInt(n), code)| < |ObjectSteps(run, n, code)|
  {
    if run != [] {
      var front, last := run[..|run| - 1], run[|run| - 1];
      assert run == front + [last];
      OwnStepsOfObject(front, n, code);
      OwnIsConcern(last, n, code);
      assert SentAsPrinted(run, n, code) <==>
             SentAsPrinted(front, n, code) && (Concerns(last, n, code) ==> last.event.id == ShowInt(n));
    }
  }

  /**
   * The history asked for under an object's number is complete, the latest event first, if and only if
   * every change of the object was sent under the id as it is printed.
   */
  lemma HistoryCompleteIff(run: seq<Step>, n: int, code: string)
    requires InRange(LongKind, n) && LinkedIdsRead(run) && ClockNonDecreasing(run)
    ensures var steps := ObjectSteps(run, n, code);
            Execute(Log(run), code,
                    ShowInt(n)) == (if steps == [] then NothingFound else History(Reversed(Messages(steps))))
            <==> SentAsPrinted(run, n, code)
  {
    ParseShowInt(LongKind, n);
    ParsedIsPlain(LongKind, ShowInt(n));
    ReadIdsUnambiguous(run, ShowInt(n), code);
    HistoryIsOwnEvents(run, ShowInt(n), code);
    OwnStepsOfObject(run, n, code);
  }

  /** An update sent as `007` changes object 7 and is missing from its history. */
  lemma PaddedIdMissed()
    ensures var run := [Step(1, Event(Update, "007", "c", "ann", "text"))];
            && LinkedIdsRead(run) && ObjectSteps(run, 7, "c") == run
            && Log(run)[0].objectLink == Some("007@c")
            && Execute(Log(run), "c", ShowInt(7)) == NothingFound
  {
    var run := [Step(1, Event(Update, "007", "c", "ann", "text"))];
    PaddedNotCanonical();
    assert run[..0] == [] && Log(run[..0]) == [];
    assert Log(run) == [Entry(1, run[0].event)];
    assert Log(run)[..0] == [];
    assert Print("007", "c") == "007@c";
    assert Print("7", "c")[1] == '@' && Print("007", "c")[1] == '0';
    assert Fetch(Log(run), Print("7", "c")) == [];
  }
}
