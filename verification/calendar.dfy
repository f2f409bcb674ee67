/**
 The calendar's mood dots (`loadCalendarMoods`): the map from date to mood
 derived from the local cache, with an entry for every cached date whose mood
 is set.
 */
module CalendarView {
  import opened Wrappers
  import opened LocalCache

  /** `calendarMoods`: every cached date with a truthy mood, mapped to that mood. */
  function MoodMap(c: Cache): (m: map<Date, Mood>)
    ensures forall d :: d in m <==> d in c && MoodSet(c[d].mood)
    ensures forall d :: d in m ==> c[d].mood == Some(m[d]) && m[d] != ""
  {
    map d | d in c && MoodSet(c[d].mood) :: c[d].mood.value
  }

  /**
   After a write-through of one date, the mood map changes at that date only:
   it shows the new mood, or no dot when the new mood is unset.
   */
  lemma MoodMapAfterPut(s: Store, d: Date, e: Entry)
    ensures MoodSet(e.mood) ==> MoodMap(Put(s, d, e).cache) == MoodMap(s.cache)[d := e.mood.value]
    ensures !MoodSet(e.mood) ==> MoodMap(Put(s, d, e).cache) == MoodMap(s.cache) - {d}
  {
    var before, after := MoodMap(s.cache), MoodMap(Put(s, d, e).cache);
    if MoodSet(e.mood) {
      assert after.Keys == before.Keys + {d};
    } else {
      assert after.Keys == before.Keys - {d};
    }
  }

  /** After logout the calendar shows no moods. */
  lemma MoodMapAfterClear()
    ensures MoodMap(Clear().cache) == map[]
  {
  }
}
