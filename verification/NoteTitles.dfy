// Title reservation and the table writes of CreateNote in
// services/notes/internal/service/notes_service.go.

module NoteTitles {
  import opened Prelude

  type WorkspaceId = nat
  type NoteId = nat
  type Title = string

  const MAX_ATTEMPTS: nat := 20

  datatype TitleKey = TitleKey(workspace: WorkspaceId, title: Title)
  datatype NoteKey = NoteKey(workspace: WorkspaceId, note: NoteId)

  // notes_by_workspace_and_title, notes and notes_by_id.
  datatype Tables = Tables(
    index: map<TitleKey, NoteId>,
    notes: map<NoteKey, Title>,
    byId: map<NoteId, TitleKey>)

  // ---------- candidate titles ----------

  function Digit(n: nat): char
    requires n < 10
  {
    (n as char + '0') as char
  }

  function Itoa(n: nat): string {
    if n < 10 then [Digit(n)] else Itoa(n / 10) + [Digit(n % 10)]
  }

  function Candidate(base: Title, attempt: nat): Title {
    if attempt == 0 then base else base + "-" + Itoa(attempt + 1)
  }

  lemma {:induction false} ItoaInjective(m: nat, n: nat)
    requires Itoa(m) == Itoa(n)
    ensures m == n
  {
    var x, y := Itoa(m), Itoa(n);
    assert x[|x| - 1] == Digit(m % 10) && y[|y| - 1] == Digit(n % 10);
    if m >= 10 && n >= 10 {
      assert x[..|x| - 1] == Itoa(m / 10) && y[..|y| - 1] == Itoa(n / 10);
      ItoaInjective(m / 10, n / 10);
    } else {
      ItoaNonempty(m / 10);
      ItoaNonempty(n / 10);
    }
  }

  lemma ItoaNonempty(n: nat)
    ensures Itoa(n) != ""
  {
  }

  /** The names tried for one title are all different. */
  lemma CandidatesDiffer(base: Title, a: nat, b: nat)
    requires a < b
    ensures Candidate(base, a) != Candidate(base, b)
  {
    var x, y := Candidate(base, a), Candidate(base, b);
    if a == 0 {
      assert |x| < |y|;
    } else {
      assert x[|base| + 1..] == Itoa(a + 1);
      assert y[|base| + 1..] == Itoa(b + 1);
      if Itoa(a + 1) == Itoa(b + 1) {
        ItoaInjective(a + 1, b + 1);
      }
    }
  }

  // What the names tried after the first end in.
  const SUFFIXES: seq<string> :=
    ["-2", "-3", "-4", "-5", "-6", "-7", "-8", "-9", "-10", "-11", "-12", "-13", "-14", "-15", "-16", "-17", "-18",
     "-19", "-20"]

  lemma OneDigit(n: nat)
    requires n < 10
    ensures Itoa(n) == ["0123456789"[n]]
  {
  }

  lemma TwoDigits(n: nat)
    requires 10 <= n < 100
    ensures Itoa(n) == ["0123456789"[n / 10], "0123456789"[n % 10]]
  {
    OneDigit(n / 10);
  }

  /** The names are the base itself and the base with -2 up to -20, in that order. */
  lemma CandidatesAre(base: Title, attempt: nat)
    requires attempt < 20
    ensures Candidate(base, attempt) == if attempt == 0 then base else base + SUFFIXES[attempt - 1]
  {
    if attempt > 0 {
      var n := attempt + 1;
      if n < 10 {
        OneDigit(n);
        assert SUFFIXES[attempt - 1] == "-" + ["0123456789"[n]];
      } else {
        TwoDigits(n);
        assert SUFFIXES[attempt - 1] == "-" + ["0123456789"[n / 10], "0123456789"[n % 10]];
      }
      assert base + "-" + Itoa(n) == base + ("-" + Itoa(n));
    }
  }

  predicate Taken(index: map<TitleKey, NoteId>, ws: WorkspaceId, base: Title, attempt: nat) {
    TitleKey(ws, Candidate(base, attempt)) in index
  }

  /** `title` is the first of base, base-2, …, base-20 that nobody holds. */
  ghost predicate FirstFree(index: map<TitleKey, NoteId>, ws: WorkspaceId, base: Title, title: Title) {
    exists a :: 0 <= a < 20 && title == Candidate(base, a)
      && !Taken(index, ws, base, a)
      && forall b :: 0 <= b < a ==> Taken(index, ws, base, b)
  }

  // ---------- the service, run alone ----------

  class Service {
    var index: map<TitleKey, NoteId>
    var notes: map<NoteKey, Title>
    var byId: map<NoteId, TitleKey>

    constructor ()
      ensures index == map[] && notes == map[] && byId == map[]
    {
      index, notes, byId := map[], map[], map[];
    }

    /** INSERT … IF NOT EXISTS. */
    method InsertTitle(k: TitleKey, note: NoteId) returns (applied: bool)
      modifies `index
      ensures applied == (k !in old(index))
      ensures index == if applied then old(index)[k := note] else old(index)
    {
      applied := k !in index;
      if applied {
        index := index[k := note];
      }
    }

    /** The first free name of base, base-2, …, base-20 is reserved; none is, exactly when all are taken. */
    method ReserveNoteTitle(ws: WorkspaceId, note: NoteId, base: Title) returns (title: Option<Title>)
      modifies `index
      ensures title.None? <==> forall a :: 0 <= a < 20 ==> Taken(old(index), ws, base, a)
      ensures title.None? ==> index == old(index)
      ensures title.Some? ==>
        && index == old(index)[TitleKey(ws, title.value) := note]
        && FirstFree(old(index), ws, base, title.value)
    {
      var attempt := 0;
      while attempt < MAX_ATTEMPTS
        invariant 0 <= attempt <= MAX_ATTEMPTS
        invariant index == old(index)
        invariant forall b :: 0 <= b < attempt ==> Taken(index, ws, base, b)
      {
        var candidate := base;
        if attempt > 0 {
          candidate := base + "-" + Itoa(attempt + 1);
        }
        var applied := InsertTitle(TitleKey(ws, candidate), note);
        if applied {
          assert candidate == Candidate(base, attempt) && !Taken(old(index), ws, base, attempt);
          return Some(candidate);
        }
        attempt := attempt + 1;
      }
      return None;
    }

    /** Every row of notes has its title reserved for it. */
    ghost predicate Indexed()
      reads this
    {
      TitlesIndexed(Tables(index, notes, byId))
    }

    method CreateNote(access: bool, ws: WorkspaceId, note: NoteId, base: Title) returns (title: Option<Title>)
      requires Indexed() && NoteKey(ws, note) !in notes
      modifies this
      ensures Indexed()
      ensures title.None? <==> !access || forall a :: 0 <= a < 20 ==> Taken(old(index), ws, base, a)
      ensures title.None? ==> notes == old(notes) && byId == old(byId) && index == old(index)
      ensures title.Some? ==>
        && notes == old(notes)[NoteKey(ws, note) := title.value]
        && byId == old(byId)[note := TitleKey(ws, title.value)]
        && index == old(index)[TitleKey(ws, title.value) := note]
        && FirstFree(old(index), ws, base, title.value)
    {
      if !access {
        return None;
      }
      title := ReserveNoteTitle(ws, note, base);
      if title.Some? {
        notes := notes[NoteKey(ws, note) := title.value];
        byId := byId[note := TitleKey(ws, title.value)];
      }
    }
  }

  // ---------- creators in parallel ----------

  // Where one CreateNote stands.
  datatype Creator =
    | Reserving(workspace: WorkspaceId, note: NoteId, base: Title, attempt: nat)
    | Reserved(workspace: WorkspaceId, note: NoteId, title: Title)
    | Inserted(workspace: WorkspaceId, note: NoteId, title: Title)
    | Created(workspace: WorkspaceId, note: NoteId, title: Title)
    | Failed

  // `drawn` holds the note ids drawn so far.
  datatype State = State(tables: Tables, creators: seq<Creator>, drawn: set<NoteId>)

  // A write either succeeds or reports an error, with or without having been applied.
  datatype Outcome = Ok | FailedLost | FailedApplied

  datatype Move =
    | Begin(workspace: WorkspaceId, note: NoteId, base: Title)
    | TryTitle(creator: nat, outcome: Outcome)
    | InsertNote(creator: nat, outcome: Outcome)
    | InsertById(creator: nat, outcome: Outcome)

  predicate Enabled(s: State, m: Move) {
    match m
    case Begin(_, note, _) => note !in s.drawn
    case TryTitle(i, _) => i < |s.creators| && s.creators[i].Reserving?
    case InsertNote(i, _) => i < |s.creators| && s.creators[i].Reserved?
    case InsertById(i, _) => i < |s.creators| && s.creators[i].Inserted?
  }

  function TryStep(s: State, i: nat, o: Outcome): State
    requires i < |s.creators| && s.creators[i].Reserving?
  {
    var Reserving(ws, note, base, attempt) := s.creators[i];
    var title := Candidate(base, attempt);
    var k := TitleKey(ws, title);
    var applied := k !in s.tables.index && o != FailedLost;
    var tables := if applied then s.tables.(index := s.tables.index[k := note]) else s.tables;
    var next :=
      if o != Ok then Failed
      else if applied then Reserved(ws, note, title)
      else if attempt + 1 < MAX_ATTEMPTS then Reserving(ws, note, base, attempt + 1)
      else Failed;
    s.(tables := tables, creators := s.creators[i := next])
  }

  function InsertStep(s: State, i: nat, o: Outcome): State
    requires i < |s.creators| && s.creators[i].Reserved?
  {
    var Reserved(ws, note, title) := s.creators[i];
    s.(tables := if o == FailedLost then s.tables
                 else s.tables.(notes := s.tables.notes[NoteKey(ws, note) := title]),
       creators := s.creators[i := if o == Ok then Inserted(ws, note, title) else Failed])
  }

  /** An error on the last table is logged and ignored. */
  function ByIdStep(s: State, i: nat, o: Outcome): State
    requires i < |s.creators| && s.creators[i].Inserted?
  {
    var Inserted(ws, note, title) := s.creators[i];
    s.(tables := if o == FailedLost then s.tables
                 else s.tables.(byId := s.tables.byId[note := TitleKey(ws, title)]),
       creators := s.creators[i := Created(ws, note, title)])
  }

  function Step(s: State, m: Move): State {
    if !Enabled(s, m) then s else
    match m
    case Begin(ws, note, base) =>
      s.(creators := s.creators + [Reserving(ws, note, base, 0)], drawn := s.drawn + {note})
    case TryTitle(i, o) => TryStep(s, i, o)
    case InsertNote(i, o) => InsertStep(s, i, o)
    case InsertById(i, o) => ByIdStep(s, i, o)
  }

  function Run(s: State, ms: seq<Move>): State {
    if ms == [] then s else Step(Run(s, ms[..|ms| - 1]), ms[|ms| - 1])
  }

  const START := State(Tables(map[], map[], map[]), [], {})

  /** Every note's title is indexed, and the index names that note. */
  ghost predicate TitlesIndexed(t: Tables) {
    forall n :: n in t.notes ==>
      TitleKey(n.workspace, t.notes[n]) in t.index && t.index[TitleKey(n.workspace, t.notes[n])] == n.note
  }

  ghost predicate CreatorKept(t: Tables, c: Creator) {
    match c
    case Reserving(_, note, _, attempt) => Unwritten(t, note) && attempt < MAX_ATTEMPTS
    case Reserved(ws, note, title) => Unwritten(t, note) && Names(t, ws, note, title)
    case Inserted(ws, note, title) => Names(t, ws, note, title) && HasNote(t, ws, note, title)
    case Created(ws, note, title) => Names(t, ws, note, title) && HasNote(t, ws, note, title)
    case Failed => true
  }

  ghost predicate Unwritten(t: Tables, note: NoteId) {
    note !in t.byId && forall n :: n in t.notes ==> n.note != note
  }

  ghost predicate Names(t: Tables, ws: WorkspaceId, note: NoteId, title: Title) {
    TitleKey(ws, title) in t.index && t.index[TitleKey(ws, title)] == note
  }

  ghost predicate HasNote(t: Tables, ws: WorkspaceId, note: NoteId, title: Title) {
    NoteKey(ws, note) in t.notes && t.notes[NoteKey(ws, note)] == title
  }

  ghost predicate Kept(s: State) {
    && TitlesIndexed(s.tables)
    && (forall i :: 0 <= i < |s.creators| ==> CreatorKept(s.tables, s.creators[i]))
    && (forall n :: n in s.tables.byId ==> HasNote(s.tables, s.tables.byId[n].workspace, n, s.tables.byId[n].title))
    && DistinctNotes(s.creators)
    && (forall n :: n in s.tables.notes ==> n.note in s.drawn)
    && (forall i :: 0 <= i < |s.creators| && !s.creators[i].Failed? ==> s.creators[i].note in s.drawn)
  }

  /** Every creator works on its own note. */
  ghost predicate DistinctNotes(creators: seq<Creator>) {
    forall i, j :: 0 <= i < j < |creators| && !creators[i].Failed? && !creators[j].Failed? ==>
      creators[i].note != creators[j].note
  }

  lemma BeginKeeps(s: State, ws: WorkspaceId, note: NoteId, base: Title)
    requires Kept(s) && note !in s.drawn
    ensures Kept(Step(s, Begin(ws, note, base)))
  {
    assert note !in s.tables.byId;
  }

  lemma TryKeeps(s: State, i: nat, o: Outcome)
    requires Kept(s) && i < |s.creators| && s.creators[i].Reserving?
    ensures Kept(TryStep(s, i, o))
  {
    var s1 := TryStep(s, i, o);
    forall j | 0 <= j < |s1.creators|
      ensures CreatorKept(s1.tables, s1.creators[j])
    {
      assert CreatorKept(s.tables, s.creators[j]) && CreatorKept(s.tables, s.creators[i]);
    }
  }

  lemma InsertKeeps(s: State, i: nat, o: Outcome)
    requires Kept(s) && i < |s.creators| && s.creators[i].Reserved?
    ensures Kept(InsertStep(s, i, o))
  {
    var s1 := InsertStep(s, i, o);
    forall j | 0 <= j < |s1.creators|
      ensures CreatorKept(s1.tables, s1.creators[j])
    {
      assert CreatorKept(s.tables, s.creators[j]) && CreatorKept(s.tables, s.creators[i]);
    }
  }

  lemma ByIdKeeps(s: State, i: nat, o: Outcome)
    requires Kept(s) && i < |s.creators| && s.creators[i].Inserted?
    ensures Kept(ByIdStep(s, i, o))
  {
    var s1 := ByIdStep(s, i, o);
    forall j | 0 <= j < |s1.creators|
      ensures CreatorKept(s1.tables, s1.creators[j])
    {
      assert CreatorKept(s.tables, s.creators[j]) && CreatorKept(s.tables, s.creators[i]);
    }
  }

  lemma KeptStep(s: State, m: Move)
    requires Kept(s)
    ensures Kept(Step(s, m))
  {
    if Enabled(s, m) {
      match m
      case Begin(ws, note, base) => BeginKeeps(s, ws, note, base);
      case TryTitle(i, o) => TryKeeps(s, i, o);
      case InsertNote(i, o) => InsertKeeps(s, i, o);
      case InsertById(i, o) => ByIdKeeps(s, i, o);
    }
  }

  lemma {:induction false} KeptRun(ms: seq<Move>)
    ensures Kept(Run(START, ms))
    decreases |ms|
  {
    if ms != [] {
      KeptRun(ms[..|ms| - 1]);
      KeptStep(Run(START, ms[..|ms| - 1]), ms[|ms| - 1]);
    }
  }

  /** However creators interleave and whichever writes fail, every note's title is indexed for that note, so
      no two notes of a workspace share a title; and a note reported as created is there under its title. */
  lemma TitlesStayUnique(ms: seq<Move>)
    ensures var s := Run(START, ms);
      && TitlesIndexed(s.tables)
      && (forall m, n :: m in s.tables.notes && n in s.tables.notes && m != n && m.workspace == n.workspace ==>
            s.tables.notes[m] != s.tables.notes[n])
      && (forall i :: 0 <= i < |s.creators| && s.creators[i].Created? ==>
            HasNote(s.tables, s.creators[i].workspace, s.creators[i].note, s.creators[i].title))
  {
    KeptRun(ms);
    var s := Run(START, ms);
    forall i | 0 <= i < |s.creators| && s.creators[i].Created?
      ensures HasNote(s.tables, s.creators[i].workspace, s.creators[i].note, s.creators[i].title)
    {
      assert CreatorKept(s.tables, s.creators[i]);
    }
  }

  lemma RunSnoc(s: State, ms: seq<Move>, m: Move)
    ensures Run(s, ms + [m]) == Step(Run(s, ms), m)
  {
    assert (ms + [m])[..|ms + [m]| - 1] == ms;
  }

  /** A creator whose earlier names are taken comes to try the next one, and nothing else changes. */
  lemma {:induction false} TriesInOrder(s: State, ws: WorkspaceId, note: NoteId, base: Title, n: nat)
    returns (ms: seq<Move>)
    requires note !in s.drawn && n < 20
    requires forall a :: 0 <= a < n ==> TitleKey(ws, Candidate(base, a)) in s.tables.index
    ensures Run(s, ms) == State(s.tables, s.creators + [Reserving(ws, note, base, n)], s.drawn + {note})
  {
    if n == 0 {
      ms := [] + [Begin(ws, note, base)];
      RunSnoc(s, [], Begin(ws, note, base));
    } else {
      var before := TriesInOrder(s, ws, note, base, n - 1);
      RunSnoc(s, before, TryTitle(|s.creators|, Ok));
      ms := before + [TryTitle(|s.creators|, Ok)];
    }
  }

  /** A creator that nothing disturbs gets the first free name, and leaves its note under it in all three tables. */
  lemma UndisturbedCreatorSucceeds(s: State, ws: WorkspaceId, note: NoteId, base: Title, n: nat)
    returns (ms: seq<Move>)
    requires note !in s.drawn && n < 20
    requires forall a :: 0 <= a < n ==> TitleKey(ws, Candidate(base, a)) in s.tables.index
    requires TitleKey(ws, Candidate(base, n)) !in s.tables.index
    ensures var title := Candidate(base, n);
            && Run(s, ms).creators == s.creators + [Created(ws, note, title)]
            && Run(s, ms).tables == Tables(s.tables.index[TitleKey(ws, title) := note],
                                           s.tables.notes[NoteKey(ws, note) := title],
                                           s.tables.byId[note := TitleKey(ws, title)])
  {
    var i := |s.creators|;
    var tries := TriesInOrder(s, ws, note, base, n);
    RunSnoc(s, tries, TryTitle(i, Ok));
    RunSnoc(s, tries + [TryTitle(i, Ok)], InsertNote(i, Ok));
    RunSnoc(s, tries + [TryTitle(i, Ok)] + [InsertNote(i, Ok)], InsertById(i, Ok));
    ms := tries + [TryTitle(i, Ok)] + [InsertNote(i, Ok)] + [InsertById(i, Ok)];
  }

  /** A creator fails when all twenty names are taken, and writes nothing. */
  lemma AllTakenFails(s: State, ws: WorkspaceId, note: NoteId, base: Title) returns (ms: seq<Move>)
    requires note !in s.drawn
    requires forall a :: 0 <= a < 20 ==> TitleKey(ws, Candidate(base, a)) in s.tables.index
    ensures Run(s, ms).creators == s.creators + [Failed] && Run(s, ms).tables == s.tables
  {
    var tries := TriesInOrder(s, ws, note, base, 19);
    RunSnoc(s, tries, TryTitle(|s.creators|, Ok));
    ms := tries + [TryTitle(|s.creators|, Ok)];
  }
}
