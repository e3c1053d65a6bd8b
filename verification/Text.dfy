/** The string functions the backend leans on, for texts whose letters are ASCII, and an optional value. */
module Text {

  datatype Option<+T> = None | Some(value: T)

  function LowerChar(c: char): char {
    if 'A' <= c <= 'Z' then c - 'A' + 'a' else c
  }

  function UpperChar(c: char): char {
    if 'a' <= c <= 'z' then c - 'a' + 'A' else c
  }

  function ToLower(s: string): string {
    seq(|s|, i requires 0 <= i < |s| => LowerChar(s[i]))
  }

  function ToUpper(s: string): string {
    seq(|s|, i requires 0 <= i < |s| => UpperChar(s[i]))
  }

  predicate EqualFold(a: string, b: string) {
    ToLower(a) == ToLower(b)
  }

  /** unicode.IsSpace. */
  predicate IsSpace(c: char) {
    || c == ' ' || '\t' <= c <= '\r' || c == '\U{85}' || c == '\U{A0}' || c == '\U{1680}'
    || '\U{2000}' <= c <= '\U{200A}' || c == '\U{2028}' || c == '\U{2029}' || c == '\U{202F}'
    || c == '\U{205F}' || c == '\U{3000}'
  }

  function TrimLeft(s: string): string {
    if s != "" && IsSpace(s[0]) then TrimLeft(s[1..]) else s
  }

  function TrimRight(s: string): string {
    if s != "" && IsSpace(s[|s| - 1]) then TrimRight(s[..|s| - 1]) else s
  }

  function TrimSpace(s: string): string {
    TrimRight(TrimLeft(s))
  }

  predicate Contains(s: string, part: string) {
    part <= s || (s != "" && Contains(s[1..], part))
  }

  predicate HasPrefix(s: string, prefix: string) {
    prefix <= s
  }

  /** Go's `<` on strings: the first difference decides, and a proper prefix comes first. */
  predicate Less(a: string, b: string) {
    if b == "" then false
    else if a == "" then true
    else a[0] < b[0] || (a[0] == b[0] && Less(a[1..], b[1..]))
  }

  lemma {:induction false} LessIrreflexive(a: string)
    ensures !Less(a, a)
  {
    if a != "" { LessIrreflexive(a[1..]); }
  }

  lemma {:induction false} LessTransitive(a: string, b: string, c: string)
    requires Less(a, b) && Less(b, c)
    ensures Less(a, c)
  {
    if a != "" && a[0] == b[0] == c[0] { LessTransitive(a[1..], b[1..], c[1..]); }
  }

  lemma {:induction false} LessConnected(a: string, b: string)
    ensures a == b || Less(a, b) || Less(b, a)
  {
    if a != "" && b != "" && a[0] == b[0] {
      LessConnected(a[1..], b[1..]);
      assert a == [a[0]] + a[1..] && b == [b[0]] + b[1..];
    }
  }

  lemma LowerIdempotent(s: string)
    ensures ToLower(ToLower(s)) == ToLower(s)
  {
  }

  /** Trimmed: nothing to trim at either end. */
  predicate Trimmed(s: string) {
    s == "" || (!IsSpace(s[0]) && !IsSpace(s[|s| - 1]))
  }

  lemma {:induction false} TrimLeftIsSuffix(s: string) returns (k: nat)
    ensures k <= |s| && TrimLeft(s) == s[k..]
    ensures TrimLeft(s) == "" || !IsSpace(TrimLeft(s)[0])
    ensures k == 0 <==> TrimLeft(s) == s
    ensures forall i :: 0 <= i < k ==> IsSpace(s[i])
  {
    if s != "" && IsSpace(s[0]) {
      var j := TrimLeftIsSuffix(s[1..]);
      k := j + 1;
      assert forall i :: 0 < i < k ==> s[i] == s[1..][i - 1];
      assert |TrimLeft(s)| < |s|;
    } else {
      k := 0;
    }
  }

  lemma {:induction false} TrimRightIsPrefix(s: string) returns (k: nat)
    ensures k <= |s| && TrimRight(s) == s[..k]
    ensures TrimRight(s) == "" || !IsSpace(TrimRight(s)[k - 1])
    ensures k == |s| <==> TrimRight(s) == s
    ensures forall i :: k <= i < |s| ==> IsSpace(s[i])
  {
    if s != "" && IsSpace(s[|s| - 1]) {
      k := TrimRightIsPrefix(s[..|s| - 1]);
    } else {
      k := |s|;
    }
  }

  /** TrimSpace leaves a trimmed text, and leaves a text alone exactly when it is trimmed. */
  lemma TrimSpaceTrims(s: string)
    ensures Trimmed(TrimSpace(s))
    ensures TrimSpace(s) == s <==> Trimmed(s)
    ensures |TrimSpace(s)| <= |s|
  {
    var j := TrimLeftIsSuffix(s);
    var k := TrimRightIsPrefix(TrimLeft(s));
    if TrimSpace(s) != "" {
      assert TrimSpace(s)[0] == TrimLeft(s)[0];
    }
    if s != "" && Trimmed(s) {
      assert TrimLeft(s) == s;
    }
  }

  /** The text between the spaces at its ends. */
  lemma TrimSpaceIsMiddle(s: string) returns (i: nat, j: nat)
    ensures i <= j <= |s| && TrimSpace(s) == s[i..j]
    ensures forall k :: 0 <= k < i || j <= k < |s| ==> IsSpace(s[k])
    ensures i < j ==> !IsSpace(s[i]) && !IsSpace(s[j - 1])
  {
    i := TrimLeftIsSuffix(s);
    var k := TrimRightIsPrefix(TrimLeft(s));
    j := i + k;
    assert forall m :: j <= m < |s| ==> s[m] == TrimLeft(s)[m - i];
    TrimSpaceTrims(s);
  }

  /** The spaces, by their code points. */
  lemma SpacesAre(c: char)
    ensures IsSpace(c) <==>
              || c as int == 32 || 9 <= c as int <= 13 || c as int == 133 || c as int == 160 || c as int == 5760
              || 8192 <= c as int <= 8202 || c as int == 8232 || c as int == 8233 || c as int == 8239
              || c as int == 8287 || c as int == 12288
  {
  }

  /** Two texts are the same but for letter case when their lower-case forms are. */
  lemma EqualFoldMeans(a: string, b: string)
    ensures EqualFold(a, b) <==> ToLower(a) == ToLower(b)
    ensures EqualFold(a, a) && (EqualFold(a, b) <==> EqualFold(b, a))
  {
  }

  /** Only the 26 letters change, by 32. */
  lemma LowerAndUpper(s: string)
    ensures |ToLower(s)| == |s| == |ToUpper(s)|
    ensures forall i :: 0 <= i < |s| ==>
              && ToLower(s)[i] as int == s[i] as int + (if 65 <= s[i] as int <= 90 then 32 else 0)
              && ToUpper(s)[i] as int == s[i] as int - (if 97 <= s[i] as int <= 122 then 32 else 0)
  {
  }

  predicate OccursAt(s: string, part: string, i: nat) {
    i + |part| <= |s| && s[i..i + |part|] == part
  }

  lemma {:induction false} ContainsFinds(s: string, part: string) returns (i: nat)
    requires Contains(s, part)
    ensures OccursAt(s, part, i)
  {
    if part <= s {
      i := 0;
    } else {
      var k := ContainsFinds(s[1..], part);
      i := k + 1;
      assert s[i..i + |part|] == s[1..][k..k + |part|];
    }
  }

  lemma {:induction false} OccurrenceIsFound(s: string, part: string, i: nat)
    requires OccursAt(s, part, i)
    ensures Contains(s, part)
    decreases i
  {
    if i > 0 {
      assert s[1..][i - 1..i - 1 + |part|] == s[i..i + |part|];
      OccurrenceIsFound(s[1..], part, i - 1);
    } else {
      assert s[..|part|] == part;
    }
  }

  lemma ContainsExactly(s: string, part: string)
    ensures Contains(s, part) <==> exists i: nat :: OccursAt(s, part, i)
  {
    if Contains(s, part) { var i := ContainsFinds(s, part); }
    if i: nat :| OccursAt(s, part, i) { OccurrenceIsFound(s, part, i); }
  }

  /** a and b agree up to k, and there a ends or has the smaller character. */
  predicate FirstDifference(a: string, b: string, k: nat) {
    && k <= |a| && k < |b| && a[..k] == b[..k]
    && (k == |a| || a[k] < b[k])
  }

  lemma {:induction false} LessDiffers(a: string, b: string) returns (k: nat)
    requires Less(a, b)
    ensures FirstDifference(a, b, k)
  {
    k := 0;
    if a != "" && a[0] == b[0] {
      var j := LessDiffers(a[1..], b[1..]);
      k := j + 1;
      assert a[..k] == [a[0]] + a[1..][..j] && b[..k] == [b[0]] + b[1..][..j];
    }
  }

  lemma {:induction false} DifferenceIsLess(a: string, b: string, k: nat)
    requires FirstDifference(a, b, k)
    ensures Less(a, b)
    decreases k
  {
    if k > 0 {
      assert a[0] == a[..k][0] == b[..k][0] == b[0];
      assert a[1..][..k - 1] == a[..k][1..] && b[1..][..k - 1] == b[..k][1..];
      DifferenceIsLess(a[1..], b[1..], k - 1);
    }
  }

  lemma LessExactly(a: string, b: string)
    ensures Less(a, b) <==> exists k: nat :: FirstDifference(a, b, k)
  {
    if Less(a, b) { var k := LessDiffers(a, b); }
    if k: nat :| FirstDifference(a, b, k) { DifferenceIsLess(a, b, k); }
  }
}
