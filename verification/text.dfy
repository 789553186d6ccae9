/** String comparison as the service manager performs it. */
module Text {

  /** Upper-case folding of the ASCII letters; every other character is
      left as it is. */
  function UpperAscii(c: char): char {
    if 'a' <= c <= 'z' then (c as int - 32) as char else c
  }

  /** ASCII ignore-case equality: same length, and the same character at
      every position once both are folded to upper case. */
  ghost predicate EqualsIgnoreCase(a: string, b: string) {
    |a| == |b| && forall i :: 0 <= i < |a| ==> UpperAscii(a[i]) == UpperAscii(b[i])
  }

  /** Executable comparison, position by position from the front. */
  function SameIgnoringCase(a: string, b: string): (r: bool)
    ensures r <==> EqualsIgnoreCase(a, b)
  {
    if |a| != |b| then false
    else if |a| == 0 then true
    else if UpperAscii(a[0]) != UpperAscii(b[0]) then false
    else
      var rest := SameIgnoringCase(a[1..], b[1..]);
      assert rest <==> EqualsIgnoreCase(a[1..], b[1..]);
      assert !rest ==> !EqualsIgnoreCase(a, b) by {
        if EqualsIgnoreCase(a, b) {
          forall i | 0 <= i < |a| - 1
            ensures UpperAscii(a[1..][i]) == UpperAscii(b[1..][i])
          {
            assert UpperAscii(a[i + 1]) == UpperAscii(b[i + 1]);
          }
        }
      }
      rest
  }

  lemma EqualsIgnoreCaseReflexive(a: string)
    ensures EqualsIgnoreCase(a, a)
  {
  }

  lemma EqualsIgnoreCaseSymmetric(a: string, b: string)
    ensures EqualsIgnoreCase(a, b) ==> EqualsIgnoreCase(b, a)
  {
  }

  lemma EqualsIgnoreCaseTransitive(a: string, b: string, c: string)
    requires EqualsIgnoreCase(a, b) && EqualsIgnoreCase(b, c)
    ensures EqualsIgnoreCase(a, c)
  {
  }

  /** Lower-case folding of the ASCII letters. */
  function LowerAscii(c: char): char {
    if 'A' <= c <= 'Z' then (c as int + 32) as char else c
  }

  /** Two names of the same length whose characters agree up to the case of
      ASCII letters compare equal. */
  lemma CaseIsIgnored(a: string, b: string)
    requires |a| == |b|
    requires forall i :: 0 <= i < |a| ==> b[i] == a[i] || b[i] == LowerAscii(a[i]) || b[i] == UpperAscii(a[i])
    ensures EqualsIgnoreCase(a, b)
  {
  }

  /** Names of different lengths never compare equal. */
  lemma LengthMatters(a: string, b: string)
    requires |a| != |b|
    ensures !EqualsIgnoreCase(a, b)
  {
  }
}
