/**
 The `Journal` component's session bookkeeping as a state machine: the
 once-per-session hydration guard, sign-out clearing, draft resolution on a
 date change, and the autosave timer with its in-flight flag.

 Each event is applied atomically. React effects are modelled by `Settle`: the
 autosave effect re-runs when one of its dependencies (content, mood, staged
 files, user, editing flag) changes, cancelling any pending timer and arming a
 new one only when its guard holds. Arrays and user objects are compared by
 identity, so `setAttachments(...)` and `setUser(...)` always count as changes.
 */
module SyncCoordinator {
  import opened Wrappers
  import opened LocalCache
  import opened SaveScheduler

  type UserId = string

  datatype State = State(
    user: Option<UserId>,
    activeDate: Date,       // `selectedDate`
    mountDate: Date,        // `selectedDate` as of the first render, seen by the auth-change callback
    draft: Draft,
    editing: bool,          // `isUserEditing`
    saving: bool,           // `isSavingRef.current`
    timerArmed: bool,       // the pending 2500 ms autosave timeout
    hydrated: bool,         // `hasLoadedUserDataRef.current`
    store: Store)

  datatype Event =
    | UserChecked(current: Option<UserId>)                 // the initial `getUser` lookup
    | SignedIn(user: UserId, fetched: Option<seq<Row>>)    // auth change with a session; `fetched` is the full select, None on error
    | SignedOut                                            // auth change without a session
    | ContentInput(html: string)                           // editor `onInput`
    | MoodPicked(mood: Mood)                               // a mood button
    | FilesPicked(files: seq<FileRef>, marksEditing: bool) // file picker; `marksEditing` when the inline insert found a cursor
    | DateSelected(date: Date)
    | AttachmentRemoved                                    // an inline attachment's remove button
    | AutosaveFired(editorHtml: Option<string>, backend: Backend)  // the 2500 ms timeout; None when there is no editor element
    | SavingReset                                          // the 500 ms timeout that clears the in-flight flag

  /** A step's next state and, when `saveJournalEntry` ran to a decision, its outcome. */
  datatype Transition = Transition(next: State, commit: Option<Outcome>)

  /** The empty draft of a date with no entry. */
  const EmptyDraft: Draft := Draft("", None, [], [], None)

  /**
   The state on mount: the cache comes from storage when the key is present
   and is empty otherwise; today is both the active and the mount date.
   */
  function Initial(today: Date, persisted: Option<Cache>): (s: State)
    ensures Inv(s)
    ensures s.user.None? && !s.hydrated && !s.timerArmed && !s.saving && !s.editing
    ensures s.store.persisted == persisted
    ensures persisted.Some? ==> s.store.cache == persisted.value
    ensures persisted.None? ==> s.store.cache == map[]
    ensures s.activeDate == today && s.mountDate == today && s.draft == EmptyDraft
  {
    State(None, today, today, EmptyDraft, false, false, false, false, Store(persisted.GetOr(map[]), persisted))
  }

  /** The autosave effect's guard: a user, an edit in progress, and no save in flight. */
  predicate Guard(s: State) {
    s.user.Some? && s.editing && !s.saving
  }

  /** The autosave effect's dependencies that are compared by value. */
  predicate SameDeps(a: State, b: State) {
    a.draft.content == b.draft.content && a.draft.mood == b.draft.mood && a.draft.staged == b.draft.staged
    && a.user == b.user && a.editing == b.editing
  }

  /** Re-runs the autosave effect if a dependency changed (`newRef`: a new array or object was set). */
  function Settle(before: State, after: State, newRef: bool): (s: State)
    ensures s.(timerArmed := after.timerArmed) == after
    ensures newRef || !SameDeps(before, after) ==> s.timerArmed == Guard(after)
    ensures !newRef && SameDeps(before, after) ==> s == after
  {
    if newRef || !SameDeps(before, after) then after.(timerArmed := Guard(after)) else after
  }

  /**
   `d` is the draft loaded for `date` from `c`, starting from `before`: the
   entry's content, mood, saved URLs and timestamp on a hit; an empty draft on
   a miss, dropping the staged files only when `clearStagedOnMiss`.
   */
  predicate DraftFor(d: Draft, before: Draft, c: Cache, date: Date, clearStagedOnMiss: bool) {
    && (date in c ==>
          d == before.(content := c[date].content, mood := c[date].mood, saved := c[date].attachments,
                       lastSaved := Some(c[date].updatedAt)))
    && (date !in c ==> d == EmptyDraft.(staged := if clearStagedOnMiss then [] else before.staged))
  }

  /**
   `loadJournalEntry`/`loadJournalEntryFromCache`: the draft for `date` from
   `cache`, with the editing flag cleared. `clearStagedOnMiss` distinguishes
   the date-change loader, which also drops staged files on a miss.
   */
  function Resolve(s: State, cache: Cache, date: Date, clearStagedOnMiss: bool): (s': State)
    ensures !s'.editing
    ensures DraftFor(s'.draft, s.draft, cache, date, clearStagedOnMiss)
    ensures s'.(draft := s.draft, editing := s.editing) == s
  {
    if date in cache then
      var e := cache[date];
      s.(editing := false, draft := s.draft.(content := e.content, mood := e.mood, saved := e.attachments, lastSaved := Some(e.updatedAt)))
    else
      s.(editing := false, draft := EmptyDraft.(staged := if clearStagedOnMiss then [] else s.draft.staged))
  }

  /** Storage holds a cache with at least one entry (`savedCache && Object.keys(...).length > 0`). */
  predicate StoredEntries(st: Store) {
    st.persisted.Some? && st.persisted.value != map[]
  }

  /**
   `loadUserData`, resolving the draft for `date`: does nothing once the
   session is hydrated. Otherwise it marks the session hydrated, takes the
   cache from storage when that holds entries, else from the fetched rows, and
   resolves the draft from that cache. A failed fetch leaves the cache alone
   and resolves the draft against the empty map `loadAllJournalEntries` returns.
   */
  function LoadUserDataAt(s: State, fetched: Option<seq<Row>>, date: Date): (s': State)
    ensures s.hydrated ==> s' == s
    ensures s'.hydrated
    ensures !s.hydrated && StoredEntries(s.store) ==> s'.store == Store(s.store.persisted.value, s.store.persisted)
    ensures !s.hydrated && !StoredEntries(s.store) && fetched.Some? ==> s'.store == Install(Hydrate(fetched.value))
    ensures !s.hydrated && !StoredEntries(s.store) && fetched.None? ==> s'.store == s.store
    ensures !s.hydrated && (StoredEntries(s.store) || fetched.Some?) ==> DraftFor(s'.draft, s.draft, s'.store.cache, date, false)
    ensures !s.hydrated && !StoredEntries(s.store) && fetched.None? ==> s'.draft == EmptyDraft.(staged := s.draft.staged)
    ensures !s.hydrated ==> !s'.editing && s'.(draft := s.draft, editing := s.editing, store := s.store, hydrated := false) == s
    ensures Coherent(s.store) ==> Coherent(s'.store)
  {
    if s.hydrated then s
    else
      var s1 := s.(hydrated := true);
      if StoredEntries(s.store) then
        var c := s.store.persisted.value;
        Resolve(s1.(store := Store(c, s.store.persisted)), c, date, false)
      else if fetched.Some? then
        var c := LoadAll(fetched);
        Resolve(s1.(store := Install(c)), c, date, false)
      else
        Resolve(s1, LoadAll(fetched), date, false)
  }

  /**
   `loadUserData` as the code runs it: the auth-change callback is registered
   once on mount, so the draft it loads is the one for the mount date, whatever
   date is active when the user signs in.
   */
  function LoadUserDataAsWritten(s: State, fetched: Option<seq<Row>>): (s': State)
    ensures !s.hydrated && (StoredEntries(s.store) || fetched.Some?) ==> DraftFor(s'.draft, s.draft, s'.store.cache, s.mountDate, false)
    ensures s'.activeDate == s.activeDate
  {
    LoadUserDataAt(s, fetched, s.mountDate)
  }

  /** `loadUserData` as intended: the draft loaded on sign-in is the one for the active date. */
  function LoadUserData(s: State, fetched: Option<seq<Row>>): (s': State)
    ensures !s.hydrated && (StoredEntries(s.store) || fetched.Some?) ==> DraftFor(s'.draft, s.draft, s'.store.cache, s'.activeDate, false)
    ensures s'.activeDate == s.activeDate
  {
    LoadUserDataAt(s, fetched, s.activeDate)
  }

  /**
   After navigating away from the mount date and signing in again, the code
   shows the mount date's entry while another date is active: here date 0's
   content "A" and mood "Happy" while date 1, which has no entry, is active.
   The intended loader shows the empty draft.
   */
  lemma StaleHydrationDate()
    ensures var s := State(Some("u"), 1, 0, EmptyDraft, false, false, false, false, Store(map[], None));
      var fetched := Some([Row(0, Some("A"), Some("Happy"), None, "t")]);
      var stale := LoadUserDataAsWritten(s, fetched);
      var fixed := LoadUserData(s, fetched);
      && stale.activeDate == 1 && 1 !in stale.store.cache
      && stale.draft.content == "A" && stale.draft.mood == Some("Happy")
      && fixed.activeDate == 1 && fixed.draft == EmptyDraft
  {
    var rows := [Row(0, Some("A"), Some("Happy"), None, "t")];
    HydrateKeys(rows);
    HydrateLastWins(rows, 0);
  }

  /** Whether an event may arrive in a state: the backend answers once per staged file. */
  predicate Enabled(s: State, e: Event) {
    e.AutosaveFired? ==> |e.backend.uploads| == |s.draft.staged|
  }

  /**
   One event. Every event keeps the invariant; a save runs only from a pending
   timer with a user and no save in flight, and raises the in-flight flag;
   while that flag is up nothing but its reset clears it and no second save
   starts; a save that fails or is skipped leaves cache, storage and draft alone.
   */
  function Step(s: State, e: Event): (t: Transition)
    requires Enabled(s, e)
    ensures Inv(s) ==> Inv(t.next)
    ensures t.commit.Some? ==>
      && e.AutosaveFired? && s.timerArmed && s.user.Some? && !s.saving
      && t.next.saving && !t.next.timerArmed
    ensures s.saving && !e.SavingReset? ==> t.commit.None? && t.next.saving
    ensures t.commit.Some? && !t.commit.value.Committed() ==> t.next.store == s.store && t.next.draft == s.draft
  {
    match e
    case UserChecked(u) =>
      Transition(Settle(s, s.(user := u), true), None)
    case SignedIn(u, fetched) =>
      Transition(Settle(s, LoadUserData(s.(user := Some(u)), fetched), true), None)
    case SignedOut =>
      var s' := s.(user := None, hydrated := false, store := Clear(),
                   draft := s.draft.(content := "", mood := None, lastSaved := None));
      Transition(Settle(s, s', true), None)
    case ContentInput(html) =>
      Transition(Settle(s, s.(draft := s.draft.(content := html), editing := true), false), None)
    case MoodPicked(m) =>
      Transition(Settle(s, s.(draft := s.draft.(mood := Some(m)), editing := true), false), None)
    case FilesPicked(files, marks) =>
      if |files| == 0 then Transition(s, None)
      else
        var s' := s.(draft := s.draft.(staged := s.draft.staged + files), editing := s.editing || marks);
        Transition(Settle(s, s', true), None)
    case DateSelected(d) =>
      var s1 := s.(activeDate := d);
      if s.user.None? then Transition(s1, None)
      else
        var s2 := Resolve(s1, s.store.cache, d, true);
        Transition(Settle(s, s2.(draft := s2.draft.(staged := [])), true), None)
    case AttachmentRemoved =>
      Transition(Settle(s, s.(editing := true), false), None)
    case AutosaveFired(editorHtml, b) =>
      if !s.timerArmed then Transition(s, None)
      else if s.saving then Transition(s.(timerArmed := false), None)
      else
        var s1 := s.(timerArmed := false, saving := true);
        if s.user.None? then Transition(s1, None)
        else
          var r := Save(s.activeDate, s.draft, s.store, editorHtml.GetOr(s.draft.content), b);
          Transition(Settle(s1, s1.(store := r.store, draft := r.draft), r.outcome.Committed()), Some(r.outcome))
    case SavingReset =>
      Transition(s.(saving := false), None)
  }

  /** Storage mirrors memory, and a pending autosave timer implies its guard. */
  predicate Inv(s: State) {
    Coherent(s.store) && (s.timerArmed ==> Guard(s))
  }

  /** In a state satisfying the invariant, a save runs only while an edit is in progress. */
  lemma CommitOnlyWhenEditing(s: State, e: Event)
    requires Inv(s) && Enabled(s, e)
    requires Step(s, e).commit.Some?
    ensures Guard(s)
  {
  }

  /** A committed save writes the active date through to the cache and storage; other dates stay as they were. */
  lemma CommitWritesThrough(s: State, e: Event)
    requires Inv(s) && Enabled(s, e)
    requires Step(s, e).commit.Some? && Step(s, e).commit.value.Committed()
    ensures var n := Step(s, e).next;
      && s.activeDate in n.store.cache
      && n.store.cache[s.activeDate].content == e.editorHtml.GetOr(s.draft.content)
      && n.store.cache[s.activeDate].mood == s.draft.mood
      && n.store.cache[s.activeDate].attachments == Combined(s.draft, e.backend)
      && n.draft.staged == [] && n.draft.saved == Combined(s.draft, e.backend)
      && Coherent(n.store)
    ensures var n := Step(s, e).next;
      forall k :: k != s.activeDate ==>
        (k in n.store.cache <==> k in s.store.cache) && (k in s.store.cache ==> n.store.cache[k] == s.store.cache[k])
  {
  }

  /** Once hydrated, a further sign-in signal changes neither the cache nor the draft. */
  lemma HydrationRunsOnce(s: State, u: UserId, fetched: Option<seq<Row>>)
    requires s.hydrated
    ensures var n := Step(s, SignedIn(u, fetched)).next;
      n.store == s.store && n.draft == s.draft && n.editing == s.editing && n.hydrated
  {
  }

  /** Signing out empties the cache, removes the stored copy, resets the hydration guard and disarms autosave. */
  lemma SignOutClears(s: State)
    ensures var n := Step(s, SignedOut).next;
      && n.store.cache == map[] && n.store.persisted.None?
      && !n.hydrated && n.user.None? && !n.timerArmed
      && n.draft.content == "" && n.draft.mood.None?
  {
  }

  /** A date change loads the draft from the cache (or clears it), drops staged files and disarms autosave. */
  lemma DateChangeLoadsDraft(s: State, d: Date)
    requires s.user.Some?
    ensures var n := Step(s, DateSelected(d)).next;
      && n.activeDate == d && !n.editing && !n.timerArmed && n.draft.staged == []
      && (d in s.store.cache ==>
            n.draft.content == s.store.cache[d].content
            && n.draft.mood == s.store.cache[d].mood
            && n.draft.saved == s.store.cache[d].attachments)
      && (d !in s.store.cache ==> n.draft == Draft("", None, [], [], None))
      && n.store == s.store
  {
  }

  /**
   Round trip through the cache: after a committed autosave, moving to any
   other date and back loads exactly the content, mood and attachments that
   were committed.
   */
  lemma CommitThenReturn(s: State, e: Event, away: Date)
    requires Inv(s) && Enabled(s, e)
    requires Step(s, e).commit.Some? && Step(s, e).commit.value.Committed()
    ensures var n1 := Step(s, e).next;
      var n2 := Step(n1, DateSelected(away)).next;
      var n3 := Step(n2, DateSelected(s.activeDate)).next;
      && n3.activeDate == s.activeDate
      && n3.draft.content == e.editorHtml.GetOr(s.draft.content)
      && n3.draft.mood == s.draft.mood
      && n3.draft.saved == Combined(s.draft, e.backend)
  {
    CommitOnlyWhenEditing(s, e);
    CommitWritesThrough(s, e);
    var n1 := Step(s, e).next;
    assert n1.user == s.user;
    DateChangeLoadsDraft(n1, away);
    var n2 := Step(n1, DateSelected(away)).next;
    DateChangeLoadsDraft(n2, s.activeDate);
  }

  /** Right after a date change the autosave timer, if it fires, saves nothing. */
  lemma NoCommitAfterDateChange(s: State, d: Date, html: Option<string>, b: Backend)
    requires s.user.Some?
    requires Enabled(Step(s, DateSelected(d)).next, AutosaveFired(html, b))
    ensures Step(Step(s, DateSelected(d)).next, AutosaveFired(html, b)).commit.None?
  {
  }

  /** The state after one event; an event the state cannot take (`!Enabled`) is ignored. */
  function After(s: State, e: Event): State {
    if Enabled(s, e) then Step(s, e).next else s
  }

  /** Number of events in a run that actually hydrate the cache. */
  function Hydrations(s: State, es: seq<Event>): nat
    decreases |es|
  {
    if |es| == 0 then 0
    else (if es[0].SignedIn? && !s.hydrated then 1 else 0) + Hydrations(After(s, es[0]), es[1..])
  }

  /** No event but a sign-out resets the hydration guard, and a sign-in sets it. */
  lemma HydratedAfter(s: State, e: Event)
    requires !e.SignedOut?
    ensures s.hydrated || e.SignedIn? ==> After(s, e).hydrated
  {
    if Enabled(s, e) {
      match e
      case SignedIn(u, fetched) =>
        assert LoadUserData(s.(user := Some(u)), fetched).hydrated;
      case AutosaveFired(html, b) =>
      case _ =>
    }
  }

  /** Without a sign-out, a session hydrates at most once, and never again after it has. */
  lemma {:induction false} AtMostOneHydration(s: State, es: seq<Event>)
    requires forall k :: 0 <= k < |es| ==> !es[k].SignedOut?
    ensures Hydrations(s, es) <= 1
    ensures s.hydrated ==> Hydrations(s, es) == 0
    decreases |es|
  {
    if |es| > 0 {
      var n := After(s, es[0]);
      HydratedAfter(s, es[0]);
      AtMostOneHydration(n, es[1..]);
    }
  }
}
