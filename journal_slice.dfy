/**
 * The journal store: the application state reducer. It holds the selected
 * zodiac sign, the last fetched horoscope, the fetch status and the journal,
 * a map from date key to entry. Each reducer case is a method of
 * `JournalState` that assigns the fields it names and nothing else; the
 * journal updates are specified by the map functions `Upsert` and `Remove`,
 * whose properties are proved as lemmas.
 *
 * The clock (`new Date().toISOString()`) and the identifier generator
 * (`generateId`) are not modelled: their values arrive as the parameters
 * `now` and `newId`. The horoscope service is not modelled either: only the
 * outcome of a fetch, as a `FetchOutcome`, reaches the reducer.
 */
module JournalSlice {
  import opened Wrappers

  datatype ZodiacSign = Aries | Taurus | Gemini | Cancer | Leo | Virgo

  datatype JournalEntry = JournalEntry(
    id: string,
    date: string,
    content: string,
    createdAt: string,
    updatedAt: string)

  /** How a horoscope fetch settled: the service's text, or an error with an optional message. */
  datatype FetchOutcome = Success(horoscope: string) | Failure(message: Option<string>)

  const DefaultFetchError: string := "Failed to fetch horoscope"

  /** Every entry is stored under its own date. */
  predicate KeyedByDate(entries: map<string, JournalEntry>) {
    forall d :: d in entries ==> entries[d].date == d
  }

  /**
   * The journal after saving `content` under `date`: an existing entry keeps
   * its id, date and creation time and takes the new content and update
   * time; otherwise a new entry is created at `now`. No other date changes.
   */
  function Upsert(entries: map<string, JournalEntry>, date: string, content: string,
                  now: string, newId: string): (r: map<string, JournalEntry>)
    ensures r.Keys == entries.Keys + {date}
    ensures forall d :: d in entries && d != date ==> r[d] == entries[d]
    ensures r[date].content == content && r[date].updatedAt == now
    ensures date in entries ==> && r[date].id == entries[date].id
                                && r[date].date == entries[date].date
                                && r[date].createdAt == entries[date].createdAt
    ensures date !in entries ==> r[date] == JournalEntry(newId, date, content, now, now)
  {
    if date in entries then
      entries[date := entries[date].(content := content, updatedAt := now)]
    else
      entries[date := JournalEntry(newId, date, content, now, now)]
  }

  /** The journal after deleting `date`: that key is gone, every other entry is as it was. */
  function Remove(entries: map<string, JournalEntry>, date: string): (r: map<string, JournalEntry>)
    ensures r.Keys == entries.Keys - {date}
    ensures forall d :: d in r ==> r[d] == entries[d]
  {
    entries - {date}
  }

  /** Saving adds one entry when the date was new and none otherwise. */
  lemma UpsertSize(entries: map<string, JournalEntry>, date: string, content: string,
                   now: string, newId: string)
    ensures |Upsert(entries, date, content, now, newId)|
            == |entries| + (if date in entries then 0 else 1)
  {
    var r := Upsert(entries, date, content, now, newId);
    if date in entries {
      assert r.Keys == entries.Keys;
    } else {
      assert r.Keys == entries.Keys + {date};
      assert |r.Keys| == |entries.Keys| + |{date}|;
    }
  }

  /** Deleting removes one entry when the date was present and is a no-op otherwise. */
  lemma RemoveSize(entries: map<string, JournalEntry>, date: string)
    ensures |Remove(entries, date)| == |entries| - (if date in entries then 1 else 0)
    ensures date !in entries ==> Remove(entries, date) == entries
  {
    var r := Remove(entries, date);
    if date in entries {
      assert entries.Keys == r.Keys + {date};
      assert |entries.Keys| == |r.Keys| + |{date}|;
    } else {
      assert r.Keys == entries.Keys;
    }
  }

  /** Saving and deleting keep every entry under its own date. */
  lemma UpsertKeepsKeyed(entries: map<string, JournalEntry>, date: string, content: string,
                         now: string, newId: string)
    requires KeyedByDate(entries)
    ensures KeyedByDate(Upsert(entries, date, content, now, newId))
  {
  }

  lemma RemoveKeepsKeyed(entries: map<string, JournalEntry>, date: string)
    requires KeyedByDate(entries)
    ensures KeyedByDate(Remove(entries, date))
  {
  }

  /**
   * Saving twice under one date: the entry keeps the identity and creation
   * time the first save gave it and carries the second save's content and
   * time.
   */
  lemma UpsertTwice(entries: map<string, JournalEntry>, date: string,
                    content1: string, now1: string, id1: string,
                    content2: string, now2: string, id2: string)
    ensures var once := Upsert(entries, date, content1, now1, id1);
            var twice := Upsert(once, date, content2, now2, id2);
            && twice[date] == once[date].(content := content2, updatedAt := now2)
            && twice.Keys == once.Keys
  {
  }

  /** Deleting a date that was just saved for the first time gives back the journal as it was. */
  lemma RemoveUndoesNewUpsert(entries: map<string, JournalEntry>, date: string, content: string,
                              now: string, newId: string)
    requires date !in entries
    ensures Remove(Upsert(entries, date, content, now, newId), date) == entries
  {
    var r := Remove(Upsert(entries, date, content, now, newId), date);
    assert r.Keys == entries.Keys;
  }

  /**
   * The error a rejected fetch stores: the rejection's message, or the
   * default text when the message is missing or empty.
   */
  function FetchErrorMessage(message: Option<string>): (error: string)
    ensures error != []
    ensures message.Some? && message.value != [] ==> error == message.value
    ensures message.None? || message.value == [] ==> error == DefaultFetchError
  {
    if message.Some? && message.value != [] then message.value else DefaultFetchError
  }

  class JournalState {
    var selectedZodiac: ZodiacSign
    var currentHoroscope: string
    var journalEntries: map<string, JournalEntry>
    var loading: bool
    var error: Option<string>

    /**
     * Entries are keyed by their date, and a fetch in flight carries no
     * error: starting a fetch clears it and every outcome ends the fetch.
     */
    ghost predicate Valid()
      reads this
    {
      KeyedByDate(journalEntries) && (loading ==> error.None?)
    }

    /** `initialState`. */
    constructor ()
      ensures Valid()
      ensures selectedZodiac == Aries && currentHoroscope == [] && journalEntries == map[]
      ensures !loading && error == None
    {
      selectedZodiac := Aries;
      currentHoroscope := [];
      journalEntries := map[];
      loading := false;
      error := None;
    }

    method SetZodiacSign(sign: ZodiacSign)
      requires Valid()
      modifies this`selectedZodiac
      ensures Valid()
      ensures selectedZodiac == sign
    {
      selectedZodiac := sign;
    }

    method SaveJournalEntry(date: string, content: string, now: string, newId: string)
      requires Valid()
      modifies this`journalEntries
      ensures Valid()
      ensures journalEntries == Upsert(old(journalEntries), date, content, now, newId)
    {
      UpsertKeepsKeyed(journalEntries, date, content, now, newId);
      journalEntries := Upsert(journalEntries, date, content, now, newId);
    }

    method DeleteJournalEntry(date: string)
      requires Valid()
      modifies this`journalEntries
      ensures Valid()
      ensures journalEntries == Remove(old(journalEntries), date)
    {
      RemoveKeepsKeyed(journalEntries, date);
      journalEntries := Remove(journalEntries, date);
    }

    method ClearError()
      requires Valid()
      modifies this`error
      ensures Valid()
      ensures error == None
    {
      error := None;
    }

    /** `fetchHoroscope.pending`. */
    method FetchPending()
      requires Valid()
      modifies this`loading, this`error
      ensures Valid()
      ensures loading && error == None
    {
      loading := true;
      error := None;
    }

    /** `fetchHoroscope.fulfilled`. */
    method FetchFulfilled(horoscope: string)
      requires Valid()
      modifies this`loading, this`currentHoroscope, this`error
      ensures Valid()
      ensures !loading && currentHoroscope == horoscope && error == None
    {
      loading := false;
      currentHoroscope := horoscope;
      error := None;
    }

    /** `fetchHoroscope.rejected`: the horoscope shown before stays. */
    method FetchRejected(message: Option<string>)
      requires Valid()
      modifies this`loading, this`error
      ensures Valid()
      ensures !loading && error == Some(FetchErrorMessage(message))
    {
      loading := false;
      error := Some(FetchErrorMessage(message));
    }

    /** The settling of a fetch, by outcome. */
    method FetchSettled(outcome: FetchOutcome)
      requires Valid()
      modifies this`loading, this`currentHoroscope, this`error
      ensures Valid() && !loading
      ensures outcome.Success? ==> currentHoroscope == outcome.horoscope && error == None
      ensures outcome.Failure? ==> && currentHoroscope == old(currentHoroscope)
                                   && error == Some(FetchErrorMessage(outcome.message))
    {
      match outcome
      case Success(text) => FetchFulfilled(text);
      case Failure(message) => FetchRejected(message);
    }
  }

  /**
   * A fetch from start to end: `loading` goes up and comes down, a failure
   * leaves a non-empty error and the previous horoscope, a success the new
   * text and no error.
   */
  method FetchLifecycle(state: JournalState, outcome: FetchOutcome)
    requires state.Valid()
    modifies state
    ensures state.Valid() && !state.loading
    ensures state.journalEntries == old(state.journalEntries)
    ensures state.selectedZodiac == old(state.selectedZodiac)
    ensures outcome.Failure? ==> && state.error.Some? && state.error.value != []
                                 && state.currentHoroscope == old(state.currentHoroscope)
    ensures outcome.Success? ==> state.currentHoroscope == outcome.horoscope && state.error == None
  {
    state.FetchPending();
    assert state.loading;
    state.FetchSettled(outcome);
  }
}
