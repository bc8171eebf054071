/** `Word`: one word of one language, identified by its database id. */
module Words {
  import opened JavaInt
  import opened JavaString
  import opened Languages

  class Word {
    var id: int
    var name: string
    var language: Language?

    /** The name is stored as given, without trimming. */
    constructor (id: int, name: string, language: Language?)
      ensures this.id == id && this.name == name && this.language == language
    {
      this.id := id;
      this.name := name;
      this.language := language;
    }

    /** A new, empty word of `language` that is not stored yet. */
    constructor ForLanguage(language: Language?)
      ensures id == NOT_STORED && name == [] && this.language == language
      ensures !IsInDatabase() && IsEmpty()
    {
      id := NOT_STORED;
      name := [];
      this.language := language;
    }

    method SetId(id: int)
      modifies this
      ensures this.id == id
      ensures name == old(name) && language == old(language)
    {
      this.id := id;
    }

    /** The name is stored trimmed; a blank name makes the word empty. */
    method SetName(name: string)
      modifies this
      ensures this.name == Trim(name)
      ensures IsEmpty() <==> forall k :: 0 <= k < |name| ==> IsTrimmed(name[k])
      ensures id == old(id) && language == old(language)
    {
      this.name := Trim(name);
    }

    method SetLanguage(language: Language?)
      modifies this
      ensures this.language == language
      ensures id == old(id) && name == old(name)
    {
      this.language := language;
    }

    /** Words are equal when they have the same id. */
    function Equals(that: Word?): (r: bool)
      reads this, that
      ensures r <==> that != null && id == that.id
    {
      that == this || (that != null && id == that.id)
    }

    function HashCode(): (h: int)
      reads this
      ensures IsInt(h)
    {
      IdHashCode(id)
    }

    /** Stored rows have a real id; a record not yet stored carries the marker -1. */
    function IsInDatabase(): (r: bool)
      reads this
      ensures r <==> id != -1
    {
      id != NOT_STORED
    }

    /** The name is empty. */
    function IsEmpty(): (r: bool)
      reads this
      ensures r <==> name == []
    {
      |name| == 0
    }
  }

  /** `equals` is an equivalence, and equal words have equal hash codes. */
  lemma WordEqualsContract(a: Word, b: Word, c: Word)
    ensures a.Equals(a)
    ensures a.Equals(b) <==> b.Equals(a)
    ensures a.Equals(b) && b.Equals(c) ==> a.Equals(c)
    ensures a.Equals(b) ==> a.HashCode() == b.HashCode()
    ensures !a.Equals(null)
  {
  }
}
