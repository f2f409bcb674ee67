/**
 The local entry cache: a map from calendar date to the last committed entry,
 together with the copy persisted under the `journal-cache` storage key.

 Dates are modelled as integers whose order is the chronological order of the
 `YYYY-MM-DD` keys; timestamps are the opaque ISO strings the backend returns.
 */
module LocalCache {
  import opened Wrappers

  type Date = int
  type Url = string
  type Timestamp = string
  type Mood = string

  /** A cached journal entry (`{content, mood, attachments, updated_at}`). */
  datatype Entry = Entry(content: string, mood: Option<Mood>, attachments: seq<Url>, updatedAt: Timestamp)

  type Cache = map<Date, Entry>

  /** A row of `journal_entries` as fetched: content and attachments may be null. */
  datatype Row = Row(date: Date, content: Option<string>, mood: Option<Mood>, attachments: Option<seq<Url>>, updatedAt: Timestamp)

  /** A mood counts as chosen when it is truthy: present and not the empty string. */
  predicate MoodSet(m: Option<Mood>) {
    m.Some? && m.value != ""
  }

  /** The cache entry built from one fetched row, with `content || ''` and `attachments || []`. */
  function EntryOfRow(r: Row): (e: Entry)
    ensures r.content.Some? ==> e.content == r.content.value
    ensures r.content.None? ==> e.content == ""
    ensures r.attachments.Some? ==> e.attachments == r.attachments.value
    ensures r.attachments.None? ==> e.attachments == []
    ensures e.mood == r.mood && e.updatedAt == r.updatedAt
  {
    Entry(r.content.GetOr(""), r.mood, r.attachments.GetOr([]), r.updatedAt)
  }

  /** Row `k` is the last row in `rows` for its date. */
  predicate LastForDate(rows: seq<Row>, k: int)
    requires 0 <= k < |rows|
  {
    forall j :: k < j < |rows| ==> rows[j].date != rows[k].date
  }

  /**
   Builds the cache from fetched rows, one assignment per row in order, so a
   later row for the same date replaces an earlier one.
   */
  function Hydrate(rows: seq<Row>): (c: Cache)
    ensures forall d :: d in c ==> exists k :: 0 <= k < |rows| && rows[k].date == d
    ensures |c| <= |rows|
  {
    if |rows| == 0 then map[]
    else
      var init := rows[..|rows| - 1];
      var c := Hydrate(init)[rows[|rows| - 1].date := EntryOfRow(rows[|rows| - 1])];
      assert forall k :: 0 <= k < |init| ==> init[k] == rows[k];
      c
  }

  /** The hydrated cache holds exactly the dates of the fetched rows. */
  lemma {:induction false} HydrateKeys(rows: seq<Row>)
    ensures forall d :: d in Hydrate(rows) <==> exists k :: 0 <= k < |rows| && rows[k].date == d
  {
    if |rows| > 0 {
      var init := rows[..|rows| - 1];
      HydrateKeys(init);
      forall d
        ensures d in Hydrate(rows) <==> exists k :: 0 <= k < |rows| && rows[k].date == d
      {
        if d in Hydrate(init) {
          var k :| 0 <= k < |init| && init[k].date == d;
          assert rows[k].date == d;
        }
        if exists k :: 0 <= k < |rows| && rows[k].date == d {
          var k :| 0 <= k < |rows| && rows[k].date == d;
          if k < |init| {
            assert init[k].date == d;
          }
        }
      }
    }
  }

  /** Each date holds the entry of the last row fetched for it. */
  lemma {:induction false} HydrateLastWins(rows: seq<Row>, k: int)
    requires 0 <= k < |rows| && LastForDate(rows, k)
    ensures rows[k].date in Hydrate(rows) && Hydrate(rows)[rows[k].date] == EntryOfRow(rows[k])
  {
    var init := rows[..|rows| - 1];
    if k < |rows| - 1 {
      assert init[k] == rows[k];
      assert LastForDate(init, k) by {
        forall j | k < j < |init|
          ensures init[j].date != init[k].date
        {
          assert init[j] == rows[j];
        }
      }
      HydrateLastWins(init, k);
    }
  }

  /**
   The cache `loadAllJournalEntries` yields: the hydrated rows, or the empty
   map when the fetch reported an error (`None`).
   */
  function LoadAll(fetched: Option<seq<Row>>): (c: Cache)
    ensures fetched.None? ==> c == map[]
    ensures fetched.Some? ==> c == Hydrate(fetched.value)
  {
    match fetched
    case None => map[]
    case Some(rows) => Hydrate(rows)
  }

  /**
   The in-memory cache together with its persisted copy; `persisted == None`
   means the storage key is absent.
   */
  datatype Store = Store(cache: Cache, persisted: Option<Cache>)

  /** Memory and storage agree, or both are empty with the key removed. */
  predicate Coherent(s: Store) {
    s.persisted == Some(s.cache) || (s.persisted.None? && s.cache == map[])
  }

  /** Writes one date through to both the map and its persisted copy. */
  function Put(s: Store, d: Date, e: Entry): (s': Store)
    ensures d in s'.cache && s'.cache[d] == e
    ensures forall k :: k != d ==> (k in s'.cache <==> k in s.cache)
    ensures forall k :: k != d && k in s.cache ==> s'.cache[k] == s.cache[k]
    ensures s'.persisted == Some(s'.cache)
  {
    var c := s.cache[d := e];
    Store(c, Some(c))
  }

  /** Installs a whole cache (hydration from the backend) in memory and storage. */
  function Install(c: Cache): (s': Store)
    ensures Coherent(s')
    ensures s'.cache == c
  {
    Store(c, Some(c))
  }

  /** Logout: the map is emptied and the storage key removed. */
  function Clear(): (s': Store)
    ensures Coherent(s')
    ensures s'.cache == map[] && s'.persisted.None?
  {
    Store(map[], None)
  }

  /** With distinct dates every fetched row is cached exactly as normalized. */
  lemma HydrateDistinct(rows: seq<Row>)
    requires forall i, j :: 0 <= i < j < |rows| ==> rows[i].date != rows[j].date
    ensures forall k :: 0 <= k < |rows| ==> rows[k].date in Hydrate(rows) && Hydrate(rows)[rows[k].date] == EntryOfRow(rows[k])
  {
    forall k | 0 <= k < |rows|
      ensures rows[k].date in Hydrate(rows) && Hydrate(rows)[rows[k].date] == EntryOfRow(rows[k])
    {
      HydrateLastWins(rows, k);
    }
  }
}
