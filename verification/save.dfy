/**
 One autosave commit (`saveJournalEntry`): upload the staged files, combine
 their URLs with the already saved ones, then update the existing row, insert
 a new one when there is something to store, or skip. A successful write is
 written through to the local cache; a failed one leaves cache and draft alone.

 Every backend call is an input: one upload outcome per staged file, whether a
 row already exists for the date, whether the write succeeded, and the clock.
 */
module SaveScheduler {
  import opened Wrappers
  import opened Text
  import opened LocalCache

  /** A staged `File`, known only by identity. */
  type FileRef = string

  /** The editor's transient state for the active date. */
  datatype Draft = Draft(
    content: string,          // `content`
    mood: Option<Mood>,       // `selectedMood`
    staged: seq<FileRef>,     // `attachments`: files not yet uploaded
    saved: seq<Url>,          // `savedAttachments`: durable URLs already committed
    lastSaved: Option<Timestamp>)

  /** What the backend answered during one save. */
  datatype Backend = Backend(
    uploads: seq<Option<Url>>,  // per staged file: its public URL, or None when the upload failed
    rowExists: bool,            // the select by (user, date) found a row
    writeOk: bool,              // the update or insert reported no error
    now: Timestamp)

  datatype Outcome = Updated | Inserted | Skipped | UpdateFailed | InsertFailed {
    predicate Committed() {
      this == Updated || this == Inserted
    }
  }

  /** The state a save leaves behind, and whether the "saved" indicator is raised. */
  datatype SaveResult = SaveResult(outcome: Outcome, store: Store, draft: Draft, indicator: bool)

  /** `results.filter(url => url !== null)`: the URLs of the uploads that succeeded. */
  function Uploaded(results: seq<Option<Url>>): (urls: seq<Url>)
    ensures |urls| <= |results|
    ensures forall u :: u in urls <==> Some(u) in results
  {
    if |results| == 0 then []
    else (if results[0].Some? then [results[0].value] else []) + Uploaded(results[1..])
  }

  /** Filtering distributes over concatenation, so the successful URLs keep their upload order. */
  lemma {:induction false} UploadedAppend(a: seq<Option<Url>>, b: seq<Option<Url>>)
    ensures Uploaded(a + b) == Uploaded(a) + Uploaded(b)
  {
    if |a| > 0 {
      assert (a + b)[1..] == a[1..] + b;
      UploadedAppend(a[1..], b);
    } else {
      assert a + b == b;
    }
  }

  /** When every upload fails, nothing is appended. */
  lemma {:induction false} UploadedAllFail(results: seq<Option<Url>>)
    requires forall k :: 0 <= k < |results| ==> results[k].None?
    ensures Uploaded(results) == []
  {
    if |results| > 0 {
      UploadedAllFail(results[1..]);
    }
  }

  /** When every upload succeeds, every URL is kept, in order. */
  lemma {:induction false} UploadedAllSucceed(results: seq<Option<Url>>)
    requires forall k :: 0 <= k < |results| ==> results[k].Some?
    ensures |Uploaded(results)| == |results|
    ensures forall k :: 0 <= k < |results| ==> Uploaded(results)[k] == results[k].value
  {
    if |results| > 0 {
      UploadedAllSucceed(results[1..]);
    }
  }

  /** `uploadAttachments`: nothing to upload gives `[]`; otherwise the successful URLs. */
  function NewUrls(staged: seq<FileRef>, uploads: seq<Option<Url>>): (urls: seq<Url>)
    requires |uploads| == |staged|
    ensures staged == [] ==> urls == []
    ensures forall u :: u in urls <==> Some(u) in uploads
  {
    if |staged| == 0 then [] else Uploaded(uploads)
  }

  /** `[...savedAttachments, ...newAttachmentUrls]`. */
  function Combined(d: Draft, b: Backend): (all: seq<Url>)
    requires |b.uploads| == |d.staged|
    ensures |all| == |d.saved| + |NewUrls(d.staged, b.uploads)|
    ensures all[..|d.saved|] == d.saved
    ensures all[|d.saved|..] == NewUrls(d.staged, b.uploads)
  {
    d.saved + NewUrls(d.staged, b.uploads)
  }

  /** Whether a new row is worth inserting: non-blank content, a chosen mood, or an attachment. */
  predicate WorthInserting(content: string, mood: Option<Mood>, all: seq<Url>) {
    !IsBlank(content) || MoodSet(mood) || |all| > 0
  }

  /** The cached entry already holds exactly what an update would commit. */
  predicate Unchanged(c: Cache, date: Date, html: string, mood: Option<Mood>, all: seq<Url>) {
    date in c && c[date].content == html && c[date].mood == mood && c[date].attachments == all
  }

  /**
   `saveJournalEntry` for the active date `date`, given the HTML the editor
   holds (`html`, already with its uploaded images' URLs substituted).
   */
  function Save(date: Date, d: Draft, s: Store, html: string, b: Backend): (r: SaveResult)
    requires |b.uploads| == |d.staged|
    // the branch taken
    ensures r.outcome == Updated <==> b.rowExists && b.writeOk
    ensures r.outcome == UpdateFailed <==> b.rowExists && !b.writeOk
    ensures r.outcome == Inserted <==> !b.rowExists && WorthInserting(d.content, d.mood, Combined(d, b)) && b.writeOk
    ensures r.outcome == InsertFailed <==> !b.rowExists && WorthInserting(d.content, d.mood, Combined(d, b)) && !b.writeOk
    ensures r.outcome == Skipped <==> !b.rowExists && !WorthInserting(d.content, d.mood, Combined(d, b))
    // write-through of a committed save
    ensures r.outcome.Committed() ==>
      && date in r.store.cache
      && r.store.cache[date].content == html
      && r.store.cache[date].mood == d.mood
      && r.store.cache[date].attachments == Combined(d, b)
    ensures r.outcome == Inserted ==> r.store.cache[date].updatedAt == b.now && r.store.persisted == Some(r.store.cache)
    ensures r.outcome.Committed() ==>
      r.draft == d.(staged := [], saved := Combined(d, b), lastSaved := Some(b.now)) && r.indicator
    // nothing else changes
    ensures forall k :: k != date ==> (k in r.store.cache <==> k in s.cache)
    ensures forall k :: k != date && k in s.cache ==> r.store.cache[k] == s.cache[k]
    ensures !r.outcome.Committed() ==> r.store == s && r.draft == d && !r.indicator
    ensures Coherent(s) ==> Coherent(r.store)
  {
    var all := Combined(d, b);
    var committed := Entry(html, d.mood, all, b.now);
    var d' := d.(staged := [], saved := all, lastSaved := Some(b.now));
    if b.rowExists then
      if !b.writeOk then SaveResult(UpdateFailed, s, d, false)
      else if Unchanged(s.cache, date, html, d.mood, all) then SaveResult(Updated, s, d', true)
      else SaveResult(Updated, Put(s, date, committed), d', true)
    else if WorthInserting(d.content, d.mood, all) then
      if !b.writeOk then SaveResult(InsertFailed, s, d, false)
      else SaveResult(Inserted, Put(s, date, committed), d', true)
    else SaveResult(Skipped, s, d, false)
  }

  /** An update refreshes the cached timestamp unless the entry already held the committed values. */
  lemma UpdateTimestamp(date: Date, d: Draft, s: Store, html: string, b: Backend)
    requires |b.uploads| == |d.staged|
    requires Save(date, d, s, html, b).outcome == Updated
    ensures var r := Save(date, d, s, html, b);
      if Unchanged(s.cache, date, html, d.mood, Combined(d, b)) then r.store == s
      else r.store.cache[date].updatedAt == b.now && r.store.persisted == Some(r.store.cache)
  {
  }

  /** No insert ever stores an entry that is blank, moodless and without attachments. */
  lemma NoEmptyInsert(date: Date, d: Draft, s: Store, html: string, b: Backend)
    requires |b.uploads| == |d.staged|
    requires IsBlank(d.content) && !MoodSet(d.mood) && d.saved == []
    requires forall k :: 0 <= k < |b.uploads| ==> b.uploads[k].None?
    ensures Save(date, d, s, html, b).outcome != Inserted
    ensures !b.rowExists ==> Save(date, d, s, html, b) == SaveResult(Skipped, s, d, false)
  {
    UploadedAllFail(b.uploads);
  }

  /** Two staged files, one upload failing: exactly the surviving URL is appended. */
  lemma OneOfTwoUploadsFails(d: Draft, u: Url, now: Timestamp, rowExists: bool)
    requires |d.staged| == 2
    ensures Combined(d, Backend([Some(u), None], rowExists, true, now)) == d.saved + [u]
  {
    assert Uploaded([Some(u), None]) == [u] by {
      UploadedAppend([Some(u)], [None]);
    }
  }
}
