/**
 * The decision logic of `EditWordActivity`: which language a new translation row
 * starts with, and which database writes saving a word row or a translation row makes.
 * The views and the database are outside the model: the text typed in a row is a
 * parameter, and each save returns the writes it makes instead of calling the database.
 */
module WordEditor {
  import opened Wrappers
  import opened JavaString
  import opened Languages
  import opened Words

  // ---------------------------------------------------------------------------
  // pickTranslationLanguage

  /** What the choice needs of a stored language: its id (which `equals` compares) and its word count. */
  datatype LanguageRow = LanguageRow(id: int, numWords: int)

  /** What the choice needs of a translation row: whether it is deleted and its word's language, if any. */
  datatype EntryLanguage = EntryLanguage(deleted: bool, languageId: Option<int>)

  /** A language no row uses yet: not the main word's and not that of a translation row still shown. */
  predicate Unused(l: LanguageRow, mainLanguageId: Option<int>, entries: seq<EntryLanguage>)
  {
    && mainLanguageId != Some(l.id)
    && forall j :: 0 <= j < |entries| && !entries[j].deleted ==> entries[j].languageId != Some(l.id)
  }

  /** `k` has the most words of `langs[..n]`, and strictly more than every language before it. */
  predicate FirstMostWords(langs: seq<LanguageRow>, n: int, k: int)
    requires 0 <= n <= |langs|
  {
    && 0 <= k < n
    && (forall i :: 0 <= i < n ==> langs[i].numWords <= langs[k].numWords)
    && (forall i :: 0 <= i < k ==> langs[i].numWords < langs[k].numWords)
  }

  /** The same, among the unused languages of `langs[..n]` only. */
  predicate FirstMostWordsUnused(langs: seq<LanguageRow>, n: int, k: int,
                                 mainLanguageId: Option<int>, entries: seq<EntryLanguage>)
    requires 0 <= n <= |langs|
  {
    && 0 <= k < n
    && Unused(langs[k], mainLanguageId, entries)
    && (forall i :: 0 <= i < n && Unused(langs[i], mainLanguageId, entries) ==> langs[i].numWords <= langs[k].numWords)
    && (forall i :: 0 <= i < k && Unused(langs[i], mainLanguageId, entries) ==> langs[i].numWords < langs[k].numWords)
  }

  predicate SomeUnused(langs: seq<LanguageRow>, n: int, mainLanguageId: Option<int>, entries: seq<EntryLanguage>)
    requires 0 <= n <= |langs|
  {
    exists i :: 0 <= i < n && Unused(langs[i], mainLanguageId, entries)
  }

  /**
   * The language (as an index into `langs`) for a new translation row: the unused
   * language with the most words, else the language with the most words; the first
   * one in list order on ties, and none only when there are no languages.
   */
  method PickTranslationLanguage(langs: seq<LanguageRow>, mainLanguageId: Option<int>, entries: seq<EntryLanguage>)
    returns (r: Option<nat>)
    ensures r.None? <==> |langs| == 0
    ensures r.Some? && SomeUnused(langs, |langs|, mainLanguageId, entries) ==>
      FirstMostWordsUnused(langs, |langs|, r.value, mainLanguageId, entries)
    ensures r.Some? && !SomeUnused(langs, |langs|, mainLanguageId, entries) ==>
      FirstMostWords(langs, |langs|, r.value)
  {
    var selected: Option<nat> := None;
    var mostWords: Option<nat> := None;

    var i := 0;
    while i < |langs|
      invariant 0 <= i <= |langs|
      invariant mostWords.None? <==> i == 0
      invariant mostWords.Some? ==> FirstMostWords(langs, i, mostWords.value)
      invariant selected.None? <==> !SomeUnused(langs, i, mainLanguageId, entries)
      invariant selected.Some? ==> FirstMostWordsUnused(langs, i, selected.value, mainLanguageId, entries)
    {
      var language := langs[i];
      if mostWords.None? || langs[mostWords.value].numWords < language.numWords {
        mostWords := Some(i);
      }

      var used := mainLanguageId == Some(language.id);
      var j := 0;
      while j < |entries| && !used
        invariant 0 <= j <= |entries|
        invariant used <==> !Unused(language, mainLanguageId, entries[..j])
      {
        if !entries[j].deleted && entries[j].languageId == Some(language.id) {
          used := true;
        }
        j := j + 1;
      }
      assert used <==> !Unused(language, mainLanguageId, entries) by {
        if !used {
          assert entries[..j] == entries;
        } else {
          UsedInPrefix(language, mainLanguageId, entries, j);
        }
      }

      if !used && (selected.None? || langs[selected.value].numWords < language.numWords) {
        selected := Some(i);
      }
      i := i + 1;
    }

    if selected.Some? {
      return selected;
    }
    return mostWords;
  }

  lemma UsedInPrefix(l: LanguageRow, mainLanguageId: Option<int>, entries: seq<EntryLanguage>, j: nat)
    requires j <= |entries| && !Unused(l, mainLanguageId, entries[..j])
    ensures !Unused(l, mainLanguageId, entries)
  {
    if mainLanguageId != Some(l.id) {
      var k :| 0 <= k < j && !entries[..j][k].deleted && entries[..j][k].languageId == Some(l.id);
      assert entries[k] == entries[..j][k];
    }
  }

  // ---------------------------------------------------------------------------
  // Saving word rows

  /** The write saving a word row makes. */
  datatype WordWrite = NoWordWrite | UpdateWord | InsertWord

  /** The write saving a translation row makes to the table linking it to the main word. */
  datatype LinkWrite = NoLinkWrite | InsertTranslation | DeleteTranslation

  /**
   * `WordEntry.saveToDatabase` after the view is synced: an empty word is not saved,
   * a new word is inserted, and a stored word is updated only when the row is editable.
   */
  function WordSaveDecision(isEmpty: bool, isInDatabase: bool, editable: bool): (w: WordWrite)
    ensures w == InsertWord <==> !isEmpty && !isInDatabase
    ensures w == UpdateWord <==> !isEmpty && isInDatabase && editable
    ensures w == NoWordWrite <==> isEmpty || (isInDatabase && !editable)
  {
    if isEmpty then NoWordWrite
    else if isInDatabase then (if editable then UpdateWord else NoWordWrite)
    else InsertWord
  }

  /**
   * The link write of `TranslationEntry.saveToDatabase`: a deleted row removes a recorded
   * link, a shown row records a missing one, and either needs both words stored.
   */
  function LinkSaveDecision(deleted: bool, mainStored: bool, wordStored: bool, linkRecorded: bool): (l: LinkWrite)
    ensures l == DeleteTranslation <==> deleted && mainStored && wordStored && linkRecorded
    ensures l == InsertTranslation <==> !deleted && mainStored && wordStored && !linkRecorded
  {
    if deleted then
      (if mainStored && wordStored && linkRecorded then DeleteTranslation else NoLinkWrite)
    else
      (if mainStored && wordStored && !linkRecorded then InsertTranslation else NoLinkWrite)
  }

  /** The row for the main word; it stays editable. */
  class WordEntry {
    var word: Word
    var editable: bool

    constructor (word: Word)
      ensures this.word == word && editable
    {
      this.word := word;
      editable := true;
    }

    /** Takes the typed text as the word's name, if the row is editable. */
    method SyncFromView(text: string)
      modifies word
      ensures word.name == (if editable then Trim(text) else old(word.name))
      ensures word.id == old(word.id) && word.language == old(word.language)
    {
      if editable {
        word.SetName(text);
      }
    }

    /**
     * Syncs the row, then inserts, updates or leaves the word. Storing a word gives it
     * the id the database chose, `insertedId`.
     */
    method SaveToDatabase(text: string, insertedId: int) returns (w: WordWrite)
      modifies word
      ensures word.name == (if editable then Trim(text) else old(word.name))
      ensures w == WordSaveDecision(word.name == [], old(word.id) != NOT_STORED, editable)
      ensures word.id == (if w == InsertWord then insertedId else old(word.id))
      ensures word.language == old(word.language)
    {
      SyncFromView(text);
      w := WordSaveDecision(word.IsEmpty(), word.IsInDatabase(), editable);
      if w == InsertWord {
        word.SetId(insertedId);
      }
    }
  }

  /** A translation row: a word linked to the main word, which can be deleted from the form. */
  class TranslationEntry {
    var word: Word
    var editable: bool
    var deleted: bool
    /** Whether the link between this word and the main word is already recorded. */
    var linkRecorded: bool

    /** A row for `word`; a word that is already stored cannot be edited from it. */
    constructor (word: Word, linkRecorded: bool)
      ensures this.word == word && this.linkRecorded == linkRecorded && !deleted
      ensures editable <==> !word.IsInDatabase()
    {
      this.word := word;
      editable := word.id == NOT_STORED;
      deleted := false;
      this.linkRecorded := linkRecorded;
    }

    /** A row for a new, empty word of `language`. */
    constructor ForLanguage(language: Language?)
      ensures word.id == NOT_STORED && word.name == [] && word.language == language
      ensures editable && !deleted && !linkRecorded
      ensures fresh(word)
    {
      word := new Word.ForLanguage(language);
      editable := true;
      deleted := false;
      linkRecorded := false;
    }

    method MarkAsDeleted()
      modifies this
      ensures deleted
      ensures word == old(word) && editable == old(editable) && linkRecorded == old(linkRecorded)
    {
      deleted := true;
    }

    method SetIsInDatabase(linkRecorded: bool)
      modifies this
      ensures this.linkRecorded == linkRecorded
      ensures word == old(word) && editable == old(editable) && deleted == old(deleted)
    {
      this.linkRecorded := linkRecorded;
    }

    /**
     * Whether the row holds nothing worth saving, judged from the typed `text`: a deleted
     * row or a stored, read-only word always matters; otherwise only blank text is empty.
     */
    function IsEmpty(text: string): (r: bool)
      reads this, word
      ensures deleted ==> !r
      ensures word.IsInDatabase() && !editable ==> !r
      ensures !deleted && !(word.IsInDatabase() && !editable) ==> (r <==> text == [])
    {
      if deleted then false
      else if word.IsInDatabase() && !editable then false
      else if |text| != 0 then false
      else true
    }

    /** A deleted row keeps its word as it is; a shown, editable row takes the typed text. */
    method SyncFromView(text: string)
      modifies word
      ensures word.name == (if !deleted && editable then Trim(text) else old(word.name))
      ensures word.id == old(word.id) && word.language == old(word.language)
    {
      if deleted {
        return;
      }
      if editable {
        word.SetName(text);
      }
    }

    /**
     * A deleted row removes the recorded link and never writes the word; a shown row
     * saves its word like a word row, then records the link if it is missing.
     */
    method SaveToDatabase(mainWord: Word, text: string, insertedId: int) returns (w: WordWrite, l: LinkWrite)
      modifies word
      ensures deleted ==> w == NoWordWrite && word.name == old(word.name) && word.id == old(word.id)
      ensures !deleted ==> word.name == (if editable then Trim(text) else old(word.name))
      ensures !deleted ==> w == WordSaveDecision(word.name == [], old(word.id) != NOT_STORED, editable)
      ensures word.id == (if w == InsertWord then insertedId else old(word.id))
      ensures l == LinkSaveDecision(deleted, mainWord.IsInDatabase(), word.IsInDatabase(), linkRecorded)
      ensures word.language == old(word.language)
    {
      if deleted {
        w := NoWordWrite;
        l := LinkSaveDecision(true, mainWord.IsInDatabase(), word.IsInDatabase(), linkRecorded);
      } else {
        SyncFromView(text);
        w := WordSaveDecision(word.IsEmpty(), word.IsInDatabase(), editable);
        if w == InsertWord {
          word.SetId(insertedId);
        }
        l := LinkSaveDecision(false, mainWord.IsInDatabase(), word.IsInDatabase(), linkRecorded);
      }
    }
  }
}
