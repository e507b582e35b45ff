/**
 * The few functions of Go's `strings` package that the gist viewer relies on,
 * and the text produced by a sequence of writes to an output stream.
 */
module GoStrings {

  /** `strings.HasPrefix(s, prefix)` */
  predicate HasPrefix(s: string, prefix: string) {
    |prefix| <= |s| && s[..|prefix|] == prefix
  }

  /** `strings.HasSuffix(s, suffix)` */
  predicate HasSuffix(s: string, suffix: string) {
    |suffix| <= |s| && s[|s| - |suffix|..] == suffix
  }

  /** `strings.Contains(s, substr)`: some suffix of `s` starts with `substr`. */
  predicate Contains(s: string, substr: string)
    decreases |s|
  {
    HasPrefix(s, substr) || (|s| > 0 && Contains(s[1..], substr))
  }

  /** `substr` occurs in `s` starting at index `i`. */
  predicate OccursAt(s: string, substr: string, i: int) {
    0 <= i <= |s| - |substr| && s[i..i + |substr|] == substr
  }

  /** `Contains` holds exactly when `substr` occurs at some position of `s`. */
  lemma {:induction false} ContainsIffOccurs(s: string, substr: string)
    ensures Contains(s, substr) <==> exists i :: OccursAt(s, substr, i)
    decreases |s|
  {
    if HasPrefix(s, substr) {
      assert OccursAt(s, substr, 0);
    } else if |s| > 0 {
      ContainsIffOccurs(s[1..], substr);
      if Contains(s[1..], substr) {
        var i :| OccursAt(s[1..], substr, i);
        assert OccursAt(s, substr, i + 1);
      }
      if exists i :: OccursAt(s, substr, i) {
        var i :| OccursAt(s, substr, i);
        assert i != 0;
        assert OccursAt(s[1..], substr, i - 1);
      }
    }
  }

  /** The text that a sequence of `fmt.Fprint` calls leaves on the stream, in order. */
  function Concat(writes: seq<string>): string {
    if writes == [] then "" else writes[0] + Concat(writes[1..])
  }
}
