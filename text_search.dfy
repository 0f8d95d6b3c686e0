/** The title condition `title ILIKE '%search%'`: a case-insensitive substring test. */
module TextSearch {

  /** Lower-cases the ASCII letters A-Z and leaves every other character alone. */
  function LowerChar(c: char): char {
    if 'A' <= c <= 'Z' then (c as int + 32) as char else c
  }

  function Lower(s: string): string {
    seq(|s|, i requires 0 <= i < |s| => LowerChar(s[i]))
  }

  /** `pat` occurs in `text` starting at position `i`. */
  predicate OccursAt(text: string, pat: string, i: int) {
    0 <= i && i + |pat| <= |text| && text[i..i + |pat|] == pat
  }

  /** `search` occurs somewhere in `title` once both are lower-cased. */
  predicate ContainsCI(title: string, search: string) {
    exists i :: 0 <= i <= |title| - |search| && OccursAt(Lower(title), Lower(search), i)
  }

  lemma LowerIdempotent(s: string)
    ensures Lower(Lower(s)) == Lower(s)
  {
  }

  /** Lower-casing commutes with taking a slice. */
  lemma LowerSlice(s: string, i: nat, j: nat)
    requires i <= j <= |s|
    ensures Lower(s)[i..j] == Lower(s[i..j])
  {
  }

  /** The match ignores the case of the title and of the search text. */
  lemma ContainsCIIgnoresCase(title: string, search: string)
    ensures ContainsCI(Lower(title), search) <==> ContainsCI(title, search)
    ensures ContainsCI(title, Lower(search)) <==> ContainsCI(title, search)
  {
    LowerIdempotent(title);
    LowerIdempotent(search);
  }

  /** A literal occurrence of the search text is always found. */
  lemma LiteralOccurrenceMatches(title: string, search: string, i: int)
    requires OccursAt(title, search, i)
    ensures ContainsCI(title, search)
  {
    LowerSlice(title, i, i + |search|);
    assert OccursAt(Lower(title), Lower(search), i);
  }

  /** The empty search text matches every title. */
  lemma EmptySearchMatchesEverything(title: string)
    ensures ContainsCI(title, "")
  {
    assert OccursAt(Lower(title), Lower(""), 0);
  }

  lemma ExampleMixedCase()
    ensures ContainsCI("Buy MILK today", "milk")
  {
    assert Lower("Buy MILK today")[4..8] == Lower("milk");
    assert OccursAt(Lower("Buy MILK today"), Lower("milk"), 4);
  }
}
