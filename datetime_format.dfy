/** The string format zod's `z.string().datetime()` accepts with its default
    options: `YYYY-MM-DDTHH:MM:SS`, an optional fraction of a second, and a
    closing `Z` (no other offset). */
module DateTimeFormat {

  predicate IsDigit(c: char) {
    '0' <= c <= '9'
  }

  predicate AllDigits(s: string) {
    forall i :: 0 <= i < |s| ==> IsDigit(s[i])
  }

  /** The character expected at position `i` of `YYYY-MM-DDTHH:MM:SS`. */
  predicate StemCharOk(i: int, c: char) {
    if i == 4 || i == 7 then c == '-'
    else if i == 10 then c == 'T'
    else if i == 13 || i == 16 then c == ':'
    else IsDigit(c)
  }

  /** An empty fraction, or a dot followed by at least one digit. */
  predicate IsFraction(s: string) {
    s == [] || (|s| >= 2 && s[0] == '.' && AllDigits(s[1..]))
  }

  predicate IsDateTime(s: string) {
    && |s| >= 20
    && (forall i :: 0 <= i < 19 ==> StemCharOk(i, s[i]))
    && IsFraction(s[19..|s| - 1])
    && s[|s| - 1] == 'Z'
  }

  lemma AcceptsWholeSeconds()
    ensures IsDateTime("2024-05-01T09:30:00Z")
  {
  }

  lemma AcceptsFractions()
    ensures IsDateTime("2024-05-01T09:30:00.125Z")
  {
  }

  lemma RejectsSpaceSeparator()
    ensures !IsDateTime("2024-05-01 09:30:00Z")
  {
    assert !StemCharOk(10, "2024-05-01 09:30:00Z"[10]);
  }

  lemma RejectsNumericOffset()
    ensures !IsDateTime("2024-05-01T09:30:00+02:00")
  {
  }
}
