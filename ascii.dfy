/** Python 2's `u.encode('ascii', 'ignore')`, applied by the server to every
    hash and person name that arrives in a message. */
module Ascii {

  predicate IsAscii(s: string) {
    forall i :: 0 <= i < |s| ==> s[i] as int < 128
  }

  /** Drops every character outside 7-bit ASCII and keeps the rest in order. */
  function EncodeIgnore(s: string): (r: string)
    ensures IsAscii(r)
    ensures |r| <= |s|
    ensures forall c :: c in r ==> c in s
  {
    if s == [] then []
    else (if s[0] as int < 128 then [s[0]] else []) + EncodeIgnore(s[1..])
  }

  /** A string that is already ASCII passes through unchanged. */
  lemma {:induction false} EncodeIgnoreKeepsAscii(s: string)
    requires IsAscii(s)
    ensures EncodeIgnore(s) == s
  {
    if s != [] {
      assert IsAscii(s[1..]) by {
        forall i | 0 <= i < |s[1..]| ensures s[1..][i] as int < 128 {
          assert s[1..][i] == s[i + 1];
        }
      }
      EncodeIgnoreKeepsAscii(s[1..]);
    }
  }

  /** Nothing is lost exactly when the input is ASCII already. */
  lemma {:induction false} EncodeIgnoreLengthPreserved(s: string)
    ensures |EncodeIgnore(s)| == |s| <==> IsAscii(s)
  {
    if s != [] {
      EncodeIgnoreLengthPreserved(s[1..]);
      if IsAscii(s[1..]) && s[0] as int < 128 {
        forall i | 0 <= i < |s| ensures s[i] as int < 128 {
          if i > 0 { assert s[i] == s[1..][i - 1]; }
        }
      }
      if IsAscii(s) {
        forall i | 0 <= i < |s[1..]| ensures s[1..][i] as int < 128 {
          assert s[1..][i] == s[i + 1];
        }
      }
    }
  }

  /** Encoding twice is encoding once. */
  lemma EncodeIgnoreIdempotent(s: string)
    ensures EncodeIgnore(EncodeIgnore(s)) == EncodeIgnore(s)
  {
    EncodeIgnoreKeepsAscii(EncodeIgnore(s));
  }

  /** Encoding works character by character: it distributes over
      concatenation, so every ASCII character of the input is kept, in
      order, however many others are dropped around it. */
  lemma {:induction false} EncodeIgnoreConcat(a: string, b: string)
    ensures EncodeIgnore(a + b) == EncodeIgnore(a) + EncodeIgnore(b)
  {
    if a == [] {
      assert a + b == b;
    } else {
      assert (a + b)[0] == a[0] && (a + b)[1..] == a[1..] + b;
      EncodeIgnoreConcat(a[1..], b);
      var head := if a[0] as int < 128 then [a[0]] else [];
      assert EncodeIgnore(a + b) == head + (EncodeIgnore(a[1..]) + EncodeIgnore(b));
      assert EncodeIgnore(a) == head + EncodeIgnore(a[1..]);
    }
  }

  /** Each ASCII character occurs in the encoding as often as in the input;
      no other character occurs at all. */
  lemma {:induction false} EncodeIgnoreCounts(s: string, c: char)
    ensures multiset(EncodeIgnore(s))[c] == if c as int < 128 then multiset(s)[c] else 0
  {
    if s != [] {
      EncodeIgnoreCounts(s[1..], c);
      assert s == [s[0]] + s[1..];
      var head := if s[0] as int < 128 then [s[0]] else [];
      assert multiset(EncodeIgnore(s)) == multiset(head) + multiset(EncodeIgnore(s[1..]));
      assert multiset(s) == multiset{s[0]} + multiset(s[1..]);
    }
  }

  /** Encodes every name of a list, keeping the list's order. */
  function EncodeAll(ss: seq<string>): (r: seq<string>)
    ensures |r| == |ss|
    ensures forall i :: 0 <= i < |ss| ==> r[i] == EncodeIgnore(ss[i])
  {
    if ss == [] then [] else EncodeAll(ss[..|ss| - 1]) + [EncodeIgnore(ss[|ss| - 1])]
  }
}
