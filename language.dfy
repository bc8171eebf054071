/** `Language`: a language the user learns words in, identified by its database id. */
module Languages {
  import opened JavaInt
  import opened JavaString

  /** The id of an object that is not (yet) stored in the database. */
  const NOT_STORED: int := -1

  /** `37 * 17 + (int) (id ^ (id >>> 32))` in `int` arithmetic: the hash both value types derive from their id. */
  function IdHashCode(id: int): (h: int)
    ensures IsInt(h)
  {
    WrapInt(37 * 17 + FoldLong(id))
  }

  /** For ids of ordinary size the hash is the id shifted by 629, so distinct ids hash apart. */
  lemma IdHashCodeSmall(a: int, b: int)
    requires 0 <= a <= MAX_INT - 629 && 0 <= b <= MAX_INT - 629
    ensures IdHashCode(a) == 629 + a
    ensures IdHashCode(a) == IdHashCode(b) <==> a == b
  {
    FoldSmall(a);
    FoldSmall(b);
  }

  /** Every object that is not stored hashes to 629. */
  lemma IdHashCodeNotStored()
    ensures IdHashCode(NOT_STORED) == 629
  {
    FoldMinusOne();
  }

  class Language {
    var id: int
    var code: string
    var name: string
    var numWords: int

    constructor (id: int, code: string, name: string, numWords: int)
      ensures this.id == id && this.code == code && this.name == name && this.numWords == numWords
    {
      this.id := id;
      this.code := code;
      this.name := name;
      this.numWords := numWords;
    }

    /** A new language the user has not saved yet. */
    constructor Blank()
      ensures id == NOT_STORED && code == [] && name == [] && numWords == 0
      ensures !IsInDatabase() && IsEmpty()
    {
      id := NOT_STORED;
      code := [];
      name := [];
      numWords := 0;
    }

    method SetId(id: int)
      modifies this
      ensures this.id == id
      ensures code == old(code) && name == old(name) && numWords == old(numWords)
    {
      this.id := id;
    }

    /** The code is stored exactly as given. */
    method SetCode(code: string)
      modifies this
      ensures this.code == code
      ensures id == old(id) && name == old(name) && numWords == old(numWords)
    {
      this.code := code;
    }

    /** The name is stored trimmed; a blank name becomes empty. */
    method SetName(name: string)
      modifies this
      ensures this.name == Trim(name)
      ensures this.name == [] <==> forall k :: 0 <= k < |name| ==> IsTrimmed(name[k])
      ensures id == old(id) && code == old(code) && numWords == old(numWords)
    {
      this.name := Trim(name);
    }

    /** Languages are equal when they have the same id. */
    function Equals(that: Language?): (r: bool)
      reads this, that
      ensures r <==> that != null && id == that.id
    {
      that == this || (that != null && id == that.id)
    }

    function HashCode(): (h: int)
      reads this
      ensures IsInt(h)
    {
      IdHashCode(id)
    }

    /** Stored rows have a real id; a record not yet stored carries the marker -1. */
    function IsInDatabase(): (r: bool)
      reads this
      ensures r <==> id != -1
    {
      id != NOT_STORED
    }

    /** Both the code and the name are empty. */
    function IsEmpty(): (r: bool)
      reads this
      ensures r <==> code == [] && name == []
    {
      |code| == 0 && |name| == 0
    }
  }

  /** `equals` is an equivalence, and equal languages have equal hash codes. */
  lemma LanguageEqualsContract(a: Language, b: Language, c: Language)
    ensures a.Equals(a)
    ensures a.Equals(b) <==> b.Equals(a)
    ensures a.Equals(b) && b.Equals(c) ==> a.Equals(c)
    ensures a.Equals(b) ==> a.HashCode() == b.HashCode()
    ensures !a.Equals(null)
  {
  }
}
