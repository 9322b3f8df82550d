/**
 * The example record, Person: two final names and a mutable age. Its id is
 * both names lower-cased and joined by an underscore, so the id never
 * changes and does not depend on letter case.
 */
module People {
  import opened Wrappers

  /** Lower-casing of one character, for the ASCII letters. */
  function LowerChar(c: char): (d: char)
    ensures 'A' <= c <= 'Z' ==> 'a' <= d <= 'z' && d as int - c as int == 32
    ensures !('A' <= c <= 'Z') ==> d == c
  {
    if 'A' <= c <= 'Z' then (c as int + 32) as char else c
  }

  /** String.toLowerCase over ASCII: every character lower-cased, in place. */
  function Lower(s: string): (t: string)
    ensures |t| == |s|
    ensures forall i :: 0 <= i < |s| ==> t[i] == LowerChar(s[i])
  {
    if s == [] then [] else [LowerChar(s[0])] + Lower(s[1..])
  }

  /** getID: the lower-cased first name, an underscore, and the lower-cased last name. */
  function PersonId(firstName: string, lastName: string): string
  {
    Lower(firstName) + "_" + Lower(lastName)
  }

  /** Two strings that differ at most in the case of ASCII letters. */
  ghost predicate SameIgnoringCase(a: string, b: string)
  {
    |a| == |b| && forall i :: 0 <= i < |a| ==> LowerChar(a[i]) == LowerChar(b[i])
  }

  class Person {
    const firstName: string
    const lastName: string
    /** The age; None is a null Integer. */
    var age: Option<int>

    constructor (firstName: string, lastName: string, age: Option<int>)
      ensures this.firstName == firstName && this.lastName == lastName && this.age == age
    {
      this.firstName := firstName;
      this.lastName := lastName;
      this.age := age;
    }

    function GetFirstName(): (name: string)
      ensures name == firstName
    {
      firstName
    }

    function GetLastName(): (name: string)
      ensures name == lastName
    {
      lastName
    }

    function GetAge(): (a: Option<int>)
      reads this
      ensures a == age
    {
      age
    }

    /** getID: derived from the two final names only. */
    function GetID(): (id: string)
      ensures |id| == |firstName| + 1 + |lastName| && id[|firstName|] == '_'
      ensures id[..|firstName|] == Lower(firstName) && id[|firstName| + 1..] == Lower(lastName)
    {
      PersonId(firstName, lastName)
    }

    /**
     * setAge: changes the age and nothing else. The names are constants and
     * GetID reads no mutable state, so the id is the same before and after.
     */
    method SetAge(age: Option<int>)
      modifies this`age
      ensures this.age == age
    {
      this.age := age;
    }
  }

  /** The id the example manager looks up: "Johnny Rockets" is "johnny_rockets". */
  lemma JohnnyRockets()
    ensures PersonId("Johnny", "Rockets") == "johnny_rockets"
  {
    assert Lower("Johnny") == "johnny";
    assert Lower("Rockets") == "rockets";
  }

  /** Names that differ only in letter case give the same id. */
  lemma {:induction false} CaseInsensitiveId(first1: string, last1: string, first2: string, last2: string)
    requires SameIgnoringCase(first1, first2) && SameIgnoringCase(last1, last2)
    ensures PersonId(first1, last1) == PersonId(first2, last2)
  {
    assert Lower(first1) == Lower(first2);
    assert Lower(last1) == Lower(last2);
  }

  /** Lower-casing twice is lower-casing once. */
  lemma {:induction false} LowerIdempotent(s: string)
    ensures Lower(Lower(s)) == Lower(s)
  {
    assert forall i :: 0 <= i < |s| ==> LowerChar(LowerChar(s[i])) == LowerChar(s[i]);
  }

  /** Ids are not unique per name pair: an underscore inside a name can move between the names. */
  lemma IdsCollide()
    ensures ("a_b", "c") != ("a", "b_c")
    ensures PersonId("a_b", "c") == PersonId("a", "b_c")
  {
    assert Lower("a_b") == "a_b" && Lower("c") == "c";
    assert Lower("a") == "a" && Lower("b_c") == "b_c";
  }
}
