/** The order of strings, character by character, as Python and SQLite compare them. */
module StringOrder {

  predicate Less(a: string, b: string) {
    if b == "" then false
    else if a == "" then true
    else if a[0] == b[0] then Less(a[1..], b[1..])
    else a[0] < b[0]
  }

  /** Up to `k` the texts agree; there the first has ended, and the second has not, or has the lower code point. */
  predicate LowerAt(a: string, b: string, k: nat) {
    k < |b| && k <= |a| && a[..k] == b[..k] && (k < |a| ==> a[k] < b[k])
  }

  /** A text is less than another if it is lower at some place up to which they agree. */
  lemma {:induction false} LessIffLower(a: string, b: string)
    ensures Less(a, b) <==> exists k :: LowerAt(a, b, k)
  {
    if a != "" && b != "" && a[0] == b[0] {
      LessIffLower(a[1..], b[1..]);
      if k: nat :| LowerAt(a[1..], b[1..], k) { LowerNext(a, b, k); }
      if k: nat :| LowerAt(a, b, k) { LowerNext(a, b, k - 1); }
    } else if b != "" && (a == "" || a[0] < b[0]) {
      assert LowerAt(a, b, 0);
    }
  }

  lemma LowerNext(a: string, b: string, k: nat)
    requires a != "" && b != "" && a[0] == b[0]
    ensures LowerAt(a, b, k + 1) <==> LowerAt(a[1..], b[1..], k)
  {
    if k < |a| && k < |b| {
      assert a[..k + 1] == [a[0]] + a[1..][..k] && b[..k + 1] == [b[0]] + b[1..][..k];
      assert a[1..][..k] == a[..k + 1][1..] && b[1..][..k] == b[..k + 1][1..];
    }
  }

  lemma {:induction false} LessAsymmetric(a: string, b: string)
    ensures !(Less(a, b) && Less(b, a))
  {
    if a != "" && b != "" && a[0] == b[0] { LessAsymmetric(a[1..], b[1..]); }
  }

  lemma {:induction false} LessTransitive(a: string, b: string, c: string)
    requires Less(a, b) && Less(b, c)
    ensures Less(a, c)
  {
    if a != "" && a[0] == b[0] == c[0] { LessTransitive(a[1..], b[1..], c[1..]); }
  }

  lemma {:induction false} LessTotal(a: string, b: string)
    ensures a == b || Less(a, b) || Less(b, a)
  {
    if a != "" && b != "" && a[0] == b[0] {
      LessTotal(a[1..], b[1..]);
      assert a == [a[0]] + a[1..] && b == [b[0]] + b[1..];
    }
  }
}
