/** Shortening a host name to the length of a label value by dropping trailing domain parts. Positions count bytes. */
module LabelTruncation {

  const LABEL_VALUE_MAX_LENGTH := 63

  /** `strings.LastIndex` for one character; -1 when it does not occur. */
  function LastIndex(s: string, c: char): (i: int)
    ensures -1 <= i < |s|
    ensures i >= 0 ==> s[i] == c
    ensures forall j :: i < j < |s| ==> s[j] != c
  {
    if s == [] then -1
    else if s[|s| - 1] == c then |s| - 1
    else LastIndex(s[..|s| - 1], c)
  }

  /** A cut at a dot that yields a label of legal length. */
  predicate IsCut(input: string, n: int) {
    0 <= n <= LABEL_VALUE_MAX_LENGTH && n < |input| && input[n] == '.'
  }

  /** A short input is kept; a long one is cut at the last dot that makes it fit, or after 63 characters without such a dot. */
  method TruncateLabelLength(inputURL: string) returns (r: string)
    ensures |r| <= LABEL_VALUE_MAX_LENGTH && r <= inputURL
    ensures |inputURL| <= LABEL_VALUE_MAX_LENGTH ==> r == inputURL
    ensures |inputURL| > LABEL_VALUE_MAX_LENGTH && (exists n :: IsCut(inputURL, n)) ==>
              IsCut(inputURL, |r|) && forall n :: IsCut(inputURL, n) ==> n <= |r|
    ensures |inputURL| > LABEL_VALUE_MAX_LENGTH && !(exists n :: IsCut(inputURL, n)) ==> |r| == LABEL_VALUE_MAX_LENGTH
  {
    if |inputURL| <= LABEL_VALUE_MAX_LENGTH {
      return inputURL;
    }
    r := inputURL;
    while true
      invariant r <= inputURL && |r| > LABEL_VALUE_MAX_LENGTH
      decreases |r|
    {
      var pos := LastIndex(r, '.');
      if pos == -1 {
        assert forall n :: 0 <= n <= LABEL_VALUE_MAX_LENGTH ==> inputURL[n] == r[n];
        return r[..LABEL_VALUE_MAX_LENGTH];
      }
      assert r[pos] == inputURL[pos];
      assert forall n :: pos < n < |r| ==> inputURL[n] == r[n];
      r := r[..pos];
      if |r| <= LABEL_VALUE_MAX_LENGTH {
        assert IsCut(inputURL, |r|);
        break;
      }
    }
  }
}
