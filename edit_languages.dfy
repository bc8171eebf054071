/**
 * `EditLanguagesActivity.LanguageEntry`: one row of the language editor, with its
 * modified / deleted / confirm-dialog flags and the write saving it makes. The row's
 * views are outside the model: the typed code and name are parameters, and whether
 * they differ from the stored ones is the `changed` flag.
 */
module LanguageEditor {
  import opened JavaString
  import opened Languages

  /** The write saving a language row makes. */
  datatype LanguageWrite = NoLanguageWrite | UpdateLanguage | InsertLanguage | DeleteLanguage

  /**
   * A deleted row deletes a stored language; a shown row updates a stored language it
   * modified and inserts a new language that is not empty.
   */
  function LanguageSaveDecision(deleted: bool, isInDatabase: bool, modified: bool, isEmpty: bool): (w: LanguageWrite)
    ensures w == DeleteLanguage <==> deleted && isInDatabase
    ensures w == UpdateLanguage <==> !deleted && isInDatabase && modified
    ensures w == InsertLanguage <==> !deleted && !isInDatabase && !isEmpty
  {
    if !deleted then
      if isInDatabase then (if modified then UpdateLanguage else NoLanguageWrite)
      else (if !isEmpty then InsertLanguage else NoLanguageWrite)
    else
      if isInDatabase then DeleteLanguage else NoLanguageWrite
  }

  class LanguageEntry {
    var language: Language
    var modified: bool
    var deleted: bool
    var confirmDeleteDialogOpen: bool

    constructor (language: Language)
      ensures this.language == language
      ensures !modified && !deleted && !confirmDeleteDialogOpen
    {
      this.language := language;
      modified := false;
      deleted := false;
      confirmDeleteDialogOpen := false;
    }

    /** A row for a new language. */
    constructor Blank()
      ensures fresh(language) && language.id == NOT_STORED && language.IsEmpty()
      ensures !modified && !deleted && !confirmDeleteDialogOpen
    {
      language := new Language.Blank();
      modified := false;
      deleted := false;
      confirmDeleteDialogOpen := false;
    }

    /**
     * The delete button: a language that has words asks for confirmation first, any
     * other is deleted at once.
     */
    method OnDeleteClick()
      modifies this
      ensures language == old(language) && modified == old(modified)
      ensures language.numWords > 0 ==> confirmDeleteDialogOpen && deleted == old(deleted)
      ensures language.numWords <= 0 ==> deleted && !confirmDeleteDialogOpen
    {
      if language.numWords > 0 {
        confirmDeleteDialogOpen := true;
      } else {
        MarkAsDeleted();
      }
    }

    method MarkAsDeleted()
      modifies this
      ensures deleted && !confirmDeleteDialogOpen
      ensures language == old(language) && modified == old(modified)
    {
      deleted := true;
      confirmDeleteDialogOpen := false;
    }

    /** Closing the confirmation dialog without deleting. */
    method CancelDelete()
      modifies this
      ensures !confirmDeleteDialogOpen
      ensures language == old(language) && modified == old(modified) && deleted == old(deleted)
    {
      confirmDeleteDialogOpen := false;
    }

    /**
     * Copies the typed code and name into the language, unless the row is deleted. Once
     * a row is modified it stays modified.
     */
    method SyncFromView(changed: bool, code: string, name: string)
      modifies this, language
      ensures language == old(language) && deleted == old(deleted)
      ensures confirmDeleteDialogOpen == old(confirmDeleteDialogOpen)
      ensures deleted ==> (modified == old(modified) &&
        language.code == old(language.code) && language.name == old(language.name))
      ensures !deleted ==> (modified == (old(modified) || changed) &&
        language.code == code && language.name == Trim(name))
      ensures language.id == old(language.id) && language.numWords == old(language.numWords)
    {
      if deleted {
        return;
      }
      if changed {
        modified := true;
      }
      language.SetCode(code);
      language.SetName(name);
    }

    /**
     * Syncs the row, then makes the write its flags and language call for. Storing a
     * new language gives it the id the database chose, `insertedId`.
     */
    method SaveToDatabase(changed: bool, code: string, name: string, insertedId: int) returns (w: LanguageWrite)
      modifies this, language
      ensures language == old(language) && deleted == old(deleted)
      ensures confirmDeleteDialogOpen == old(confirmDeleteDialogOpen)
      ensures deleted ==> (modified == old(modified) &&
        language.code == old(language.code) && language.name == old(language.name))
      ensures !deleted ==> (modified == (old(modified) || changed) &&
        language.code == code && language.name == Trim(name))
      ensures w == LanguageSaveDecision(deleted, old(language.id) != NOT_STORED, modified, language.IsEmpty())
      ensures language.id == (if w == InsertLanguage then insertedId else old(language.id))
      ensures language.numWords == old(language.numWords)
    {
      SyncFromView(changed, code, name);
      w := LanguageSaveDecision(deleted, language.IsInDatabase(), modified, language.IsEmpty());
      if w == InsertLanguage {
        language.SetId(insertedId);
      }
    }
  }

  /** A deleted row never inserts or updates. */
  lemma DeletedRowOnlyDeletes(isInDatabase: bool, modified: bool, isEmpty: bool)
    ensures LanguageSaveDecision(true, isInDatabase, modified, isEmpty) in {NoLanguageWrite, DeleteLanguage}
  {
  }

  /**
   * A new row typed with a blank code and a blank name is not inserted; with any code
   * it is.
   */
  lemma BlankNewLanguageNotInserted(code: string, name: string, modified: bool)
    requires forall k :: 0 <= k < |name| ==> IsTrimmed(name[k])
    ensures LanguageSaveDecision(false, false, modified, |code| == 0 && |Trim(name)| == 0) ==
      (if code == [] then NoLanguageWrite else InsertLanguage)
  {
  }
}
