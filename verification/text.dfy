/** String helpers the command-line client relies on: case folding for action
    names and the byte-wise string order Go's `<` uses when the registry is
    sorted in debug mode. */
module Text {

  /** ASCII case folding of one character, standing in for Go's `unicode.ToLower`. */
  function LowerChar(c: char): (r: char)
    ensures 'A' <= c <= 'Z' ==> 'a' <= r <= 'z' && r as int == c as int + 32
    ensures !('A' <= c <= 'Z') ==> r == c
  {
    if 'A' <= c <= 'Z' then (c as int + 32) as char else c
  }

  /** ASCII upper-casing of one character; used only to describe re-cased inputs. */
  function UpperChar(c: char): (r: char)
    ensures 'a' <= c <= 'z' ==> 'A' <= r <= 'Z' && r as int == c as int - 32
    ensures !('a' <= c <= 'z') ==> r == c
  {
    if 'a' <= c <= 'z' then (c as int - 32) as char else c
  }

  /** Go's `strings.ToLower`, restricted to ASCII letters: every character is
      folded on its own, so the length never changes. */
  function ToLower(s: string): (r: string)
    ensures |r| == |s|
    ensures forall i :: 0 <= i < |s| ==> r[i] == LowerChar(s[i])
    ensures forall i :: 0 <= i < |r| ==> !('A' <= r[i] <= 'Z')
  {
    seq(|s|, i requires 0 <= i < |s| => LowerChar(s[i]))
  }

  /** The string `s` with the characters at the positions in `upper` written in
      upper case and all others in lower case: any re-casing of `s`. */
  function Recase(s: string, upper: set<nat>): (r: string)
    ensures |r| == |s|
  {
    seq(|s|, i requires 0 <= i < |s| => if i in upper then UpperChar(s[i]) else LowerChar(s[i]))
  }

  /** Re-casing a string never changes what it folds to. */
  lemma RecaseFoldsAlike(s: string, upper: set<nat>)
    ensures ToLower(Recase(s, upper)) == ToLower(s)
  {
    var t := Recase(s, upper);
    forall i | 0 <= i < |s|
      ensures ToLower(t)[i] == ToLower(s)[i]
    {
      assert t[i] == if i in upper then UpperChar(s[i]) else LowerChar(s[i]);
    }
  }

  /** `a` and `b` agree on their first `k` characters, after which `a` ends
      while `b` goes on, or `a`'s next character is the smaller one. */
  predicate FirstDifferenceAt(a: string, b: string, k: nat)
  {
    k <= |a| && k < |b| && a[..k] == b[..k] && (k == |a| || a[k] < b[k])
  }

  /** Shifting past a common first character shifts the first difference. */
  lemma FirstDifferenceShift(a: string, b: string)
    requires |a| > 0 && |b| > 0 && a[0] == b[0]
    ensures !FirstDifferenceAt(a, b, 0)
    ensures forall k: nat :: FirstDifferenceAt(a, b, k + 1) <==> FirstDifferenceAt(a[1..], b[1..], k)
  {
    forall k: nat
      ensures FirstDifferenceAt(a, b, k + 1) <==> FirstDifferenceAt(a[1..], b[1..], k)
    {
      if k + 1 <= |a| && k + 1 < |b| {
        assert a[..k + 1] == [a[0]] + a[1..][..k] && b[..k + 1] == [b[0]] + b[1..][..k];
      }
    }
  }

  /** Go's `a < b` on strings: lexicographic order on characters. Comparing
      UTF-8 bytes, as Go does, gives the same order as comparing code points.
      It holds exactly when the strings have a first difference in `b`'s favour. */
  predicate Less(a: string, b: string)
    ensures Less(a, b) <==> exists k: nat :: FirstDifferenceAt(a, b, k)
  {
    if |a| == 0 then assert |b| > 0 ==> FirstDifferenceAt(a, b, 0); |b| > 0
    else if |b| == 0 then false
    else if a[0] != b[0] then
      assert a[0] < b[0] ==> FirstDifferenceAt(a, b, 0);
      assert forall k: nat :: 0 < k <= |a| && k < |b| ==> a[..k][0] == a[0] && b[..k][0] == b[0];
      a[0] < b[0]
    else
      FirstDifferenceShift(a, b);
      var r := Less(a[1..], b[1..]);
      assert r ==> exists k: nat :: FirstDifferenceAt(a[1..], b[1..], k) && FirstDifferenceAt(a, b, k + 1);
      assert forall k: nat :: FirstDifferenceAt(a, b, k) ==> k > 0 && FirstDifferenceAt(a[1..], b[1..], k - 1);
      r
  }

  lemma {:induction false} LessIrreflexive(a: string)
    ensures !Less(a, a)
  {
    if |a| > 0 {
      LessIrreflexive(a[1..]);
    }
  }

  lemma {:induction false} LessTransitive(a: string, b: string, c: string)
    requires Less(a, b) && Less(b, c)
    ensures Less(a, c)
  {
    if |a| > 0 && |b| > 0 && |c| > 0 && a[0] == b[0] && b[0] == c[0] {
      LessTransitive(a[1..], b[1..], c[1..]);
    }
  }

  /** Any two strings are equal or ordered one way or the other. */
  lemma {:induction false} LessTrichotomous(a: string, b: string)
    ensures a == b || Less(a, b) || Less(b, a)
  {
    if |a| > 0 && |b| > 0 && a[0] == b[0] {
      LessTrichotomous(a[1..], b[1..]);
      if a[1..] == b[1..] {
        assert a == [a[0]] + a[1..] && b == [b[0]] + b[1..];
      }
    }
  }

  lemma {:induction false} LessAsymmetric(a: string, b: string)
    requires Less(a, b)
    ensures !Less(b, a)
  {
    if Less(b, a) {
      LessTransitive(a, b, a);
      LessIrreflexive(a);
    }
  }
}
