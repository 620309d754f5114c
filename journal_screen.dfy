/**
 * The journal screen's editing session and its derived views. The session
 * holds the draft (`currentEntry`) and the unsaved-changes flag, and writes
 * to the store through `JournalState.SaveJournalEntry`. Each handler of the
 * screen is a method; the periodic auto-save is `AutoSave`, called once per
 * timer tick, and an attempt to leave the screen is `Leave`.
 *
 * `todayKey` is the key of the day the screen is showing; the clock read
 * that produces it is not modelled. The store's `now` and `newId` values
 * are passed through from the caller.
 */
module JournalScreen {
  import opened Text
  import opened JournalSlice
  import opened KeyOrder

  /** `todayEntry?.content || ''`: the saved text for `key`, empty when there is none. */
  function PersistedContent(entries: map<string, JournalEntry>, key: string): (content: string)
    ensures key in entries ==> content == entries[key].content
    ensures key !in entries ==> content == []
  {
    if key in entries then entries[key].content else []
  }

  /** What the screen ever writes: non-empty text with no whitespace at either end. */
  predicate CleanContent(content: string) {
    content != [] && IsTrimmed(content)
  }

  predicate AllClean(entries: map<string, JournalEntry>) {
    forall d :: d in entries ==> CleanContent(entries[d].content)
  }

  /** The text the screen saves for a draft, when it saves at all, is clean. */
  lemma TrimmedDraftIsClean(draft: string)
    requires !AllWhitespace(draft)
    ensures CleanContent(Trim(draft))
  {
  }

  /** Saving clean text keeps every entry of a clean journal clean. */
  lemma UpsertKeepsClean(entries: map<string, JournalEntry>, date: string, content: string,
                         now: string, newId: string)
    requires AllClean(entries) && CleanContent(content)
    ensures AllClean(Upsert(entries, date, content, now, newId))
  {
  }

  /**
   * `getWordCount()`: the number of whitespace-separated words of the
   * draft, that is the number of positions where a word begins.
   */
  function WordCount(draft: string): (n: nat)
    ensures n == |set i | 0 <= i < |draft| && IsWordStart(draft, i)|
    ensures n == 0 <==> AllWhitespace(draft)
  {
    NoWordsIffBlank(draft);
    WordsCountStarts(draft);
    |Words(draft)|
  }

  /** `getCharacterCount()`: the draft's `length`, in UTF-16 code units. */
  function CharacterCount(draft: string): (n: nat)
    ensures |draft| <= n <= 2 * |draft|
  {
    Utf16Length(draft)
  }

  /** Two words with one space between them count as two words. */
  lemma TwoWordCount(w1: string, w2: string)
    requires w1 != [] && w2 != [] && NoWhitespace(w1) && NoWhitespace(w2)
    ensures WordCount(w1 + " " + w2) == 2
  {
    TwoWords(w1, w2);
  }

  /** The draft "Hello world" has eleven characters. */
  lemma HelloWorldCharacters()
    ensures CharacterCount("Hello world") == 11
  {
  }

  /** What the screen does when the user tries to leave it. */
  datatype GuardDecision = Proceed | BlockAndAsk

  /** The two answers to the "Discard changes?" prompt. */
  datatype PromptChoice = DontSave | SaveAndLeave

  /** What an explicit save reports to the user. */
  datatype SaveResult = EmptyEntry | Saved

  class EditingSession {
    const store: JournalState
    const todayKey: string
    var currentEntry: string
    var hasUnsavedChanges: bool
    /**
     * The draft as the `beforeRemove` listener sees it. The listener is
     * registered again only when `hasUnsavedChanges` changes, so the draft
     * in its closure is the one from that moment.
     */
    var listenerDraft: string

    ghost predicate Valid()
      reads this, store
    {
      store.Valid()
    }

    /** The screen mounts and its first effect loads today's entry. */
    constructor (store: JournalState, todayKey: string)
      requires store.Valid()
      ensures Valid()
      ensures this.store == store && this.todayKey == todayKey
      ensures currentEntry == PersistedContent(store.journalEntries, todayKey)
      ensures !hasUnsavedChanges
    {
      this.store := store;
      this.todayKey := todayKey;
      listenerDraft := [];
      currentEntry := PersistedContent(store.journalEntries, todayKey);
      hasUnsavedChanges := false;
    }

    /** After a render: the listener is registered again when the flag changed. */
    method Rendered(wasUnsaved: bool)
      modifies this`listenerDraft
      ensures listenerDraft == if hasUnsavedChanges != wasUnsaved then currentEntry
                               else old(listenerDraft)
    {
      if hasUnsavedChanges != wasUnsaved {
        listenerDraft := currentEntry;
      }
    }

    /** The effect that runs when today's stored entry changes. */
    method Reload()
      requires Valid()
      modifies this`currentEntry, this`hasUnsavedChanges, this`listenerDraft
      ensures Valid()
      ensures currentEntry == PersistedContent(store.journalEntries, todayKey)
      ensures !hasUnsavedChanges
      ensures listenerDraft == if old(hasUnsavedChanges) then currentEntry else old(listenerDraft)
    {
      var wasUnsaved := hasUnsavedChanges;
      currentEntry := PersistedContent(store.journalEntries, todayKey);
      hasUnsavedChanges := false;
      Rendered(wasUnsaved);
    }

    /** `handleTextChange(text)`. */
    method TextChange(text: string)
      requires Valid()
      modifies this`currentEntry, this`hasUnsavedChanges, this`listenerDraft
      ensures Valid()
      ensures currentEntry == text
      ensures hasUnsavedChanges <==> text != PersistedContent(store.journalEntries, todayKey)
      ensures listenerDraft == if hasUnsavedChanges != old(hasUnsavedChanges) then text
                               else old(listenerDraft)
    {
      var wasUnsaved := hasUnsavedChanges;
      currentEntry := text;
      hasUnsavedChanges := text != PersistedContent(store.journalEntries, todayKey);
      Rendered(wasUnsaved);
    }

    /**
     * `handleSave()`: a blank draft is refused and nothing changes;
     * otherwise the trimmed draft is saved for today and the flag clears.
     */
    method Save(now: string, newId: string) returns (result: SaveResult)
      requires Valid()
      modifies this`hasUnsavedChanges, this`listenerDraft, store`journalEntries
      ensures Valid()
      ensures result == EmptyEntry <==> AllWhitespace(currentEntry)
      ensures currentEntry == old(currentEntry)
      ensures result == EmptyEntry ==> && store.journalEntries == old(store.journalEntries)
                                       && hasUnsavedChanges == old(hasUnsavedChanges)
                                       && listenerDraft == old(listenerDraft)
      ensures result == Saved ==>
        && store.journalEntries == Upsert(old(store.journalEntries), todayKey, Trim(currentEntry), now, newId)
        && CleanContent(Trim(currentEntry))
        && !hasUnsavedChanges
      ensures AllClean(old(store.journalEntries)) ==> AllClean(store.journalEntries)
    {
      var content := Trim(currentEntry);
      if content == [] {
        return EmptyEntry;
      }
      var wasUnsaved := hasUnsavedChanges;
      store.SaveJournalEntry(todayKey, content, now, newId);
      hasUnsavedChanges := false;
      Rendered(wasUnsaved);
      TrimmedDraftIsClean(currentEntry);
      if AllClean(old(store.journalEntries)) {
        UpsertKeepsClean(old(store.journalEntries), todayKey, content, now, newId);
      }
      return Saved;
    }

    /**
     * `handleAutoSave()`, one timer tick: with unsaved changes and a draft
     * that is not blank, the trimmed draft is saved and the flag clears;
     * otherwise nothing changes.
     */
    method AutoSave(now: string, newId: string)
      requires Valid()
      modifies this`hasUnsavedChanges, this`listenerDraft, store`journalEntries
      ensures Valid()
      ensures currentEntry == old(currentEntry)
      ensures old(hasUnsavedChanges) && !AllWhitespace(currentEntry) ==>
        && store.journalEntries == Upsert(old(store.journalEntries), todayKey, Trim(currentEntry), now, newId)
        && !hasUnsavedChanges
      ensures !(old(hasUnsavedChanges) && !AllWhitespace(currentEntry)) ==>
        && store.journalEntries == old(store.journalEntries)
        && hasUnsavedChanges == old(hasUnsavedChanges)
        && listenerDraft == old(listenerDraft)
      ensures AllClean(old(store.journalEntries)) ==> AllClean(store.journalEntries)
    {
      var content := Trim(currentEntry);
      if hasUnsavedChanges && content != [] {
        store.SaveJournalEntry(todayKey, content, now, newId);
        hasUnsavedChanges := false;
        Rendered(true);
        TrimmedDraftIsClean(currentEntry);
        if AllClean(old(store.journalEntries)) {
          UpsertKeepsClean(old(store.journalEntries), todayKey, content, now, newId);
        }
      }
    }

    /** The `beforeRemove` listener's first decision. */
    function Guard(): (decision: GuardDecision)
      reads this
      ensures decision == Proceed <==> !hasUnsavedChanges
    {
      if hasUnsavedChanges then BlockAndAsk else Proceed
    }

    /**
     * An attempt to leave the screen, with the answer the user would give
     * if asked. Without unsaved changes the screen is left and nothing is
     * asked or written. With them the user is asked; "Don't save" leaves
     * without writing, "Save" performs the auto-save write of the current
     * draft and then leaves. The screen is left in every case.
     */
    method Leave(choice: PromptChoice, now: string, newId: string) returns (asked: bool)
      requires Valid()
      modifies this`hasUnsavedChanges, this`listenerDraft, store`journalEntries
      ensures Valid()
      ensures asked == (old(Guard()) == BlockAndAsk)
      ensures !asked || choice == DontSave ==> store.journalEntries == old(store.journalEntries)
      ensures asked && choice == SaveAndLeave && !AllWhitespace(currentEntry) ==>
        store.journalEntries == Upsert(old(store.journalEntries), todayKey, Trim(currentEntry), now, newId)
      ensures asked && choice == SaveAndLeave && AllWhitespace(currentEntry) ==>
        store.journalEntries == old(store.journalEntries)
      ensures AllClean(old(store.journalEntries)) ==> AllClean(store.journalEntries)
    {
      if Guard() == Proceed {
        return false;
      }
      if choice == SaveAndLeave {
        AutoSave(now, newId);
      }
      return true;
    }

    /**
     * The same attempt as the source has it: "Save" runs the auto-save of
     * the listener's closure, which writes `listenerDraft`, the draft from
     * when the flag last changed, rather than the current draft.
     */
    method LeaveAsWritten(choice: PromptChoice, now: string, newId: string) returns (asked: bool)
      requires Valid()
      modifies this`hasUnsavedChanges, this`listenerDraft, store`journalEntries
      ensures Valid()
      ensures asked == old(hasUnsavedChanges)
      ensures !asked || choice == DontSave ==> store.journalEntries == old(store.journalEntries)
      ensures asked && choice == SaveAndLeave && !AllWhitespace(old(listenerDraft)) ==>
        store.journalEntries
          == Upsert(old(store.journalEntries), todayKey, Trim(old(listenerDraft)), now, newId)
      ensures asked && choice == SaveAndLeave && AllWhitespace(old(listenerDraft)) ==>
        store.journalEntries == old(store.journalEntries)
    {
      if !hasUnsavedChanges {
        return false;
      }
      if choice == SaveAndLeave {
        var content := Trim(listenerDraft);
        if content != [] {
          store.SaveJournalEntry(todayKey, content, now, newId);
          hasUnsavedChanges := false;
          Rendered(true);
        }
      }
      return true;
    }
  }

  /**
   * A first session of the day: no entry yet, so the draft starts empty;
   * typing a draft that is not blank makes it unsaved with at least one
   * word, and saving creates today's entry, the only one, holding the
   * trimmed draft, and clears the flag.
   */
  method FirstEntryScenario(today: string, draft: string, now: string, newId: string)
    returns (dirty: bool, words: nat, result: SaveResult, journal: map<string, JournalEntry>,
             clean: bool)
    requires !AllWhitespace(draft)
    ensures dirty && words >= 1 && result == Saved && clean
    ensures journal == map[today := JournalEntry(newId, today, Trim(draft), now, now)]
  {
    var store := new JournalState();
    var session := new EditingSession(store, today);
    session.TextChange(draft);
    dirty := session.hasUnsavedChanges;
    words := WordCount(session.currentEntry);
    result := session.Save(now, newId);
    journal := store.journalEntries;
    clean := !session.hasUnsavedChanges;
  }

  /** Saving a blank draft is refused and the journal stays empty. */
  method BlankSaveScenario(today: string, draft: string, now: string, newId: string)
    returns (result: SaveResult, entries: nat)
    requires AllWhitespace(draft)
    ensures result == EmptyEntry && entries == 0
  {
    var store := new JournalState();
    var session := new EditingSession(store, today);
    session.TextChange(draft);
    result := session.Save(now, newId);
    entries := |store.journalEntries|;
  }

  /**
   * Typing `first` and then `second` in an empty day, then leaving and
   * answering "Save": as the screen is written, the text stored is the
   * trimmed `first`, the draft the listener saw when the flag turned on.
   * With "H" and then "Hello", "H" is stored.
   */
  method StaleLeaveScenario(today: string, first: string, second: string, now: string,
                            newId: string) returns (asked: bool, stored: string)
    requires !AllWhitespace(first) && second != []
    ensures asked && stored == Trim(first)
  {
    var store := new JournalState();
    var session := new EditingSession(store, today);
    session.TextChange(first);
    session.TextChange(second);
    asked := session.LeaveAsWritten(SaveAndLeave, now, newId);
    stored := PersistedContent(store.journalEntries, today);
  }

  /** The same steps with `Leave`: the text stored is the trimmed current draft, `second`. */
  method LeaveSavesLatestDraft(today: string, first: string, second: string, now: string,
                               newId: string) returns (asked: bool, stored: string)
    requires first != [] && !AllWhitespace(second)
    ensures asked && stored == Trim(second)
  {
    var store := new JournalState();
    var session := new EditingSession(store, today);
    session.TextChange(first);
    session.TextChange(second);
    asked := session.Leave(SaveAndLeave, now, newId);
    stored := PersistedContent(store.journalEntries, today);
  }

  /** "H" and "Hello" are their own trimmed forms and differ, so the two leaves store different text. */
  lemma StaleLeaveExample()
    ensures Trim("H") == "H" && Trim("Hello") == "Hello" && !AllWhitespace("H")
  {
    assert IsTrimmed("H") by { assert !IsWhitespace("H"[0]); }
    TrimmedIsFixed("H");
    assert IsTrimmed("Hello") by { assert !IsWhitespace("Hello"[0]) && !IsWhitespace("Hello"[4]); }
    TrimmedIsFixed("Hello");
  }

  /**
   * Two timer ticks in a row: the second writes nothing and leaves the
   * flag as the first left it, because the first either saved and cleared
   * the flag or found nothing to save.
   */
  method AutoSaveTwice(session: EditingSession, now1: string, id1: string,
                       now2: string, id2: string)
    requires session.Valid()
    modifies session`hasUnsavedChanges, session`listenerDraft, session.store`journalEntries
    ensures session.Valid()
    ensures old(session.hasUnsavedChanges) && !AllWhitespace(session.currentEntry) ==>
      && session.store.journalEntries
         == Upsert(old(session.store.journalEntries), session.todayKey, Trim(session.currentEntry), now1, id1)
      && !session.hasUnsavedChanges
    ensures !(old(session.hasUnsavedChanges) && !AllWhitespace(session.currentEntry)) ==>
      && session.store.journalEntries == old(session.store.journalEntries)
      && session.hasUnsavedChanges == old(session.hasUnsavedChanges)
  {
    session.AutoSave(now1, id1);
    session.AutoSave(now2, id2);
  }

  /** How many earlier entries the screen lists. */
  const MaxPreviousEntries: nat := 10

  /** `k` comes after every other key of `keys`. */
  predicate IsNewestIn(k: string, keys: set<string>) {
    forall j :: j in keys && j != k ==> KeyLess(j, k)
  }

  /** The greatest key of a non-empty set, in key order. */
  function Newest(keys: set<string>): (k: string)
    requires keys != {}
    ensures k in keys
    ensures forall j :: j in keys && j != k ==> KeyLess(j, k)
  {
    NewestExists(keys);
    KeyLessAsymmetricAll();
    var k :| k in keys && IsNewestIn(k, keys);
    k
  }

  lemma KeyLessAsymmetricAll()
    ensures forall a, b :: KeyLess(a, b) ==> !KeyLess(b, a)
  {
    forall a, b ensures KeyLess(a, b) ==> !KeyLess(b, a) {
      KeyLessAsymmetric(a, b);
    }
  }

  lemma {:induction false} NewestExists(keys: set<string>)
    requires keys != {}
    ensures exists k :: k in keys && IsNewestIn(k, keys)
    decreases |keys|
  {
    var x :| x in keys;
    if keys == {x} {
      assert IsNewestIn(x, keys);
    } else {
      var rest := keys - {x};
      NewestExists(rest);
      var m :| m in rest && IsNewestIn(m, rest);
      var k := NewestWith(m, rest, x);
      assert keys == rest + {x};
    }
  }

  /** Adding a key to a set with a newest key: the newer of the two is the newest. */
  lemma NewestWith(m: string, rest: set<string>, x: string) returns (k: string)
    requires m in rest && IsNewestIn(m, rest) && x !in rest
    ensures k in rest + {x} && IsNewestIn(k, rest + {x})
  {
    KeyLessTotal(x, m);
    if KeyLess(x, m) {
      k := m;
    } else {
      k := x;
      forall j | j in rest + {x} && j != x ensures KeyLess(j, x) {
        if j != m { KeyLessTransitive(j, m, x); }
      }
    }
  }

  /** The keys, newest first. */
  function NewestFirst(keys: set<string>): (r: seq<string>)
    ensures |r| == |keys|
    ensures forall k :: k in r <==> k in keys
    ensures forall i, j :: 0 <= i < j < |r| ==> KeyLess(r[j], r[i])
    decreases |keys|
  {
    if keys == {} then []
    else
      var k := Newest(keys);
      [k] + NewestFirst(keys - {k})
  }

  /**
   * `getPreviousEntries()`: the entries of every date but `currentDate`,
   * newest first, at most `MaxPreviousEntries` of them; any date left out
   * is older than every date listed.
   */
  function PreviousEntries(entries: map<string, JournalEntry>, currentDate: string)
    : (r: seq<(string, JournalEntry)>)
    ensures |r| == if |entries.Keys - {currentDate}| < MaxPreviousEntries
                   then |entries.Keys - {currentDate}| else MaxPreviousEntries
    ensures forall i :: 0 <= i < |r| ==>
              r[i].0 in entries && r[i].0 != currentDate && r[i].1 == entries[r[i].0]
    ensures forall i, j :: 0 <= i < j < |r| ==> KeyLess(r[j].0, r[i].0)
    ensures forall d :: d in entries && d != currentDate && d !in Dates(r) ==>
              forall i :: 0 <= i < |r| ==> KeyLess(d, r[i].0)
  {
    var keys := NewestFirst(entries.Keys - {currentDate});
    var shown := keys[..if |keys| < MaxPreviousEntries then |keys| else MaxPreviousEntries];
    LeftOutAreOlder(keys, |shown|);
    assert forall i :: 0 <= i < |shown| ==> shown[i] in keys;
    WithEntries(entries, shown)
  }

  /** Keys past the first `n` of a newest-first list are older than each of the first `n`. */
  lemma LeftOutAreOlder(keys: seq<string>, n: nat)
    requires n <= |keys|
    requires forall i, j :: 0 <= i < j < |keys| ==> KeyLess(keys[j], keys[i])
    ensures forall d :: d in keys && d !in keys[..n] ==> forall i :: 0 <= i < n ==> KeyLess(d, keys[i])
  {
    forall d, i | d in keys && d !in keys[..n] && 0 <= i < n ensures KeyLess(d, keys[i]) {
      var p :| 0 <= p < |keys| && keys[p] == d;
      assert p >= n;
    }
  }

  /** Pairs each listed date with its entry. */
  function WithEntries(entries: map<string, JournalEntry>, dates: seq<string>)
    : (r: seq<(string, JournalEntry)>)
    requires forall i :: 0 <= i < |dates| ==> dates[i] in entries
    ensures Dates(r) == dates
    ensures forall i :: 0 <= i < |r| ==> r[i].1 == entries[dates[i]]
  {
    var r := seq(|dates|, i requires 0 <= i < |dates| => (dates[i], entries[dates[i]]));
    assert Dates(r) == dates;
    r
  }

  /** The dates of a list of entries, in order. */
  function Dates(r: seq<(string, JournalEntry)>): (ds: seq<string>)
    ensures |ds| == |r| && forall i :: 0 <= i < |r| ==> ds[i] == r[i].0
  {
    seq(|r|, i requires 0 <= i < |r| => r[i].0)
  }
}
