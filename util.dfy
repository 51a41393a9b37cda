/**
 * Random strings and the string/digest pairs built from them.
 * The random-number generator is an oracle: the sequence of values that
 * successive calls of Next(|Chars|) return. The digest is a parameter: the
 * text BitConverter.ToString gives for the SHA hash of the string's ASCII bytes.
 */
module Util {

  /** The alphabet random strings are drawn from. */
  const Chars := "abcdefghijklmnopqrstuvwxyzABCDEFGHIJKLMNOPQRSTUVWXYZ0123456789"

  predicate IsLower(c: char) { 'a' <= c <= 'z' }
  predicate IsUpper(c: char) { 'A' <= c <= 'Z' }
  predicate IsDigit(c: char) { '0' <= c <= '9' }
  predicate IsAlphanumeric(c: char) { IsLower(c) || IsUpper(c) || IsDigit(c) }

  /** The three blocks the alphabet is made of. */
  const Lowercase := "abcdefghijklmnopqrstuvwxyz"
  const Uppercase := "ABCDEFGHIJKLMNOPQRSTUVWXYZ"
  const Digits := "0123456789"

  lemma LowercaseMembers() ensures forall c :: c in Lowercase <==> IsLower(c) {}
  lemma UppercaseMembers() ensures forall c :: c in Uppercase <==> IsUpper(c) {}
  lemma DigitsMembers() ensures forall c :: c in Digits <==> IsDigit(c) {}

  /** The alphabet is the 26 lowercase letters, the 26 uppercase letters and the 10 digits, and nothing else. */
  lemma CharsAlphabet()
    ensures Chars == Lowercase + Uppercase + Digits
    ensures |Chars| == 62
    ensures forall c :: c in Chars <==> IsAlphanumeric(c)
  {
    LowercaseMembers();
    UppercaseMembers();
    DigitsMembers();
    assert Chars == Lowercase + Uppercase + Digits;
  }

  /** A string and the digest text computed from it. */
  class StringHashPair {
    var str: string
    var hash: string

    constructor (str: string, hash: string)
      ensures this.str == str && this.hash == hash
    {
      this.str := str;
      this.hash := hash;
    }
  }

  /** Whether every draw is an index into the alphabet, as Next(|Chars|) promises. */
  predicate ValidDraws(draws: seq<int>) {
    forall k :: 0 <= k < |draws| ==> 0 <= draws[k] < |Chars|
  }

  /**
   * A string of `size` characters, the i-th being the alphabet character that
   * the i-th draw selects. `draws` holds the values the generator yields next.
   */
  method RandomString(size: nat, draws: seq<int>) returns (s: string)
    requires size <= |draws| && ValidDraws(draws)
    ensures |s| == size
    ensures forall i :: 0 <= i < size ==> s[i] == Chars[draws[i]]
    ensures forall i :: 0 <= i < size ==> IsAlphanumeric(s[i])
  {
    CharsAlphabet();
    var buffer := new char[size];
    for i := 0 to size
      invariant forall k :: 0 <= k < i ==> buffer[k] == Chars[draws[k]]
    {
      buffer[i] := Chars[draws[i]];
    }
    s := buffer[..];
  }

  /** The string Replace("-", "") leaves: every character but the dashes, in order. */
  function RemoveDashes(s: string): (r: string)
    ensures '-' !in r
    ensures forall c :: c in r <==> c in s && c != '-'
    ensures |r| <= |s|
    ensures '-' !in s ==> r == s
    ensures multiset(r) == multiset(s)['-' := 0]
  {
    if s == [] then ""
    else
      assert s == [s[0]] + s[1..];
      if s[0] == '-' then RemoveDashes(s[1..])
      else [s[0]] + RemoveDashes(s[1..])
  }

  /** Removing dashes from two pieces and joining them is removing them from the whole. */
  lemma {:induction false} RemoveDashesAppend(a: string, b: string)
    ensures RemoveDashes(a + b) == RemoveDashes(a) + RemoveDashes(b)
  {
    if a == [] {
      assert a + b == b;
    } else {
      var ab := a + b;
      assert ab[0] == a[0] && ab[1..] == a[1..] + b;
      RemoveDashesAppend(a[1..], b);
      if a[0] == '-' {
        assert RemoveDashes(ab) == RemoveDashes(a[1..] + b);
      } else {
        assert RemoveDashes(ab) == [a[0]] + RemoveDashes(a[1..] + b);
        assert RemoveDashes(a) == [a[0]] + RemoveDashes(a[1..]);
      }
    }
  }

  /** Removing dashes a second time changes nothing. */
  lemma RemoveDashesIdempotent(s: string)
    ensures RemoveDashes(RemoveDashes(s)) == RemoveDashes(s)
  {
  }

  /**
   * sha1(): a 20-character random string paired with the dash-free text of
   * its SHA-1 digest. `sha1Text` maps a string to BitConverter.ToString of
   * the SHA-1 hash of its ASCII bytes.
   */
  method Sha1(draws: seq<int>, sha1Text: string -> string) returns (pair: StringHashPair)
    requires 20 <= |draws| && ValidDraws(draws)
    ensures |pair.str| == 20
    ensures forall i :: 0 <= i < 20 ==> IsAlphanumeric(pair.str[i]) && pair.str[i] == Chars[draws[i]]
    ensures pair.hash == RemoveDashes(sha1Text(pair.str))
    ensures '-' !in pair.hash
  {
    var randStr := RandomString(20, draws);
    var hash := RemoveDashes(sha1Text(randStr));
    pair := new StringHashPair(randStr, hash);
  }

  /** sha512(): as Sha1, with the SHA-512 digest text `sha512Text`. */
  method Sha512(draws: seq<int>, sha512Text: string -> string) returns (pair: StringHashPair)
    requires 20 <= |draws| && ValidDraws(draws)
    ensures |pair.str| == 20
    ensures forall i :: 0 <= i < 20 ==> IsAlphanumeric(pair.str[i]) && pair.str[i] == Chars[draws[i]]
    ensures pair.hash == RemoveDashes(sha512Text(pair.str))
    ensures '-' !in pair.hash
  {
    var randStr := RandomString(20, draws);
    var hash := RemoveDashes(sha512Text(randStr));
    pair := new StringHashPair(randStr, hash);
  }
}
