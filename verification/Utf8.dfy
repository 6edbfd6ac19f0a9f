/** Well-formed UTF-8, by the byte grammar in section 4 of RFC 3629. */
module Utf8 {
  import opened Common

  predicate Tail(b: Byte) {
    0x80 <= b < 0xC0
  }

  /** How many bytes the character with this first byte has; 0 if no character starts so. */
  function Width(lead: Byte): nat {
    if lead < 0x80 then 1
    else if 0xC2 <= lead <= 0xDF then 2
    else if 0xE0 <= lead <= 0xEF then 3
    else if 0xF0 <= lead <= 0xF4 then 4
    else 0
  }

  /** The second byte excludes overlong forms, surrogates and values past U+10FFFF. */
  predicate SecondOk(lead: Byte, second: Byte) {
    && Tail(second)
    && (lead == 0xE0 ==> second >= 0xA0)
    && (lead == 0xED ==> second <= 0x9F)
    && (lead == 0xF0 ==> second >= 0x90)
    && (lead == 0xF4 ==> second <= 0x8F)
  }

  predicate StartsWithChar(s: Bytes)
    requires s != []
  {
    var n := Width(s[0]);
    && 0 < n <= |s|
    && (n >= 2 ==> SecondOk(s[0], s[1]))
    && (n >= 3 ==> Tail(s[2]))
    && (n >= 4 ==> Tail(s[3]))
  }

  predicate WellFormed(s: Bytes) {
    s == [] || (StartsWithChar(s) && WellFormed(s[Width(s[0])..]))
  }

  /** Where a string may be sliced: its ends and every byte that is not a continuation byte. */
  predicate Boundary(s: Bytes, i: nat) {
    i == 0 || i == |s| || (i < |s| && !Tail(s[i]))
  }

  /** The two sides of a boundary are well-formed. */
  lemma {:induction false} SplitsAtBoundary(s: Bytes, i: nat)
    requires WellFormed(s) && i <= |s| && Boundary(s, i)
    ensures WellFormed(s[..i]) && WellFormed(s[i..])
  {
    if i == 0 || i == |s| {
      assert s[..|s|] == s;
    } else {
      var n := Width(s[0]);
      var rest := s[n..];
      CharBefore(s, i);
      SplitsAtBoundary(rest, i - n);
      SliceOfRest(s, n, i);
    }
  }

  lemma SliceOfRest(s: Bytes, n: nat, i: nat)
    requires n <= i <= |s|
    ensures s[..i][n..] == s[n..][..i - n] && s[i..] == s[n..][i - n..]
  {
  }

  /** A boundary inside a string lies behind its first character. */
  lemma CharBefore(s: Bytes, i: nat)
    requires 0 < i < |s| && StartsWithChar(s) && Boundary(s, i)
    ensures Width(s[0]) <= i && StartsWithChar(s[..i]) && Boundary(s[Width(s[0])..], i - Width(s[0]))
  {
  }

  /** And only a boundary splits a well-formed string into well-formed halves. */
  lemma {:induction false} BoundaryExactly(s: Bytes, i: nat)
    requires WellFormed(s) && i <= |s|
    ensures Boundary(s, i) <==> WellFormed(s[..i]) && WellFormed(s[i..])
  {
    if Boundary(s, i) {
      SplitsAtBoundary(s, i);
    } else {
      assert s[i..][0] == s[i];
    }
  }

  /** No four bytes in a row are all inside a character. */
  lemma {:induction false} BoundaryNear(s: Bytes, i: nat)
    requires WellFormed(s) && 3 <= i < |s|
    ensures !Tail(s[i]) || !Tail(s[i - 1]) || !Tail(s[i - 2]) || !Tail(s[i - 3])
  {
    var n := Width(s[0]);
    var rest := s[n..];
    if i >= n + 3 {
      BoundaryNear(rest, i - n);
      assert rest[i - n] == s[i] && rest[i - n - 1] == s[i - 1];
      assert rest[i - n - 2] == s[i - 2] && rest[i - n - 3] == s[i - 3];
    } else if i >= n {
      assert rest[0] == s[n];
    }
  }
}
