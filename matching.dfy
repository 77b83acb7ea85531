/** The pure string tests of the call orchestrator (src/index.js): JavaScript's
    `includes`, `toLowerCase` and `substring(0, n)`, the goodbye-phrase test run on
    every text delta, and the two identifier heuristics used when the call
    identifier of a media stream is not known exactly. */
module Matching {

  /** `sub` starts at position `i` of `s`. */
  predicate OccursAt(s: string, sub: string, i: nat)
  {
    i + |sub| <= |s| && s[i..i + |sub|] == sub
  }

  /** `s.includes(sub)`, scanning from the left. */
  predicate Contains(s: string, sub: string)
    decreases |s|
  {
    (|sub| <= |s| && s[..|sub|] == sub) || (|s| > 0 && Contains(s[1..], sub))
  }

  /** The scan agrees with the positional reading of `includes`: `sub` occurs in
      `s` exactly when it starts at some position of `s`. */
  lemma {:induction false} ContainsIffOccurs(s: string, sub: string)
    ensures Contains(s, sub) <==> exists i: nat :: OccursAt(s, sub, i)
    decreases |s|
  {
    if Contains(s, sub) {
      if |sub| <= |s| && s[..|sub|] == sub {
        assert OccursAt(s, sub, 0);
      } else {
        ContainsIffOccurs(s[1..], sub);
        var i: nat :| OccursAt(s[1..], sub, i);
        assert s[i + 1..i + 1 + |sub|] == s[1..][i..i + |sub|];
        assert OccursAt(s, sub, i + 1);
      }
    }
    if exists i: nat :: OccursAt(s, sub, i) {
      var i: nat :| OccursAt(s, sub, i);
      if i > 0 {
        assert s[1..][i - 1..i - 1 + |sub|] == s[i..i + |sub|];
        assert OccursAt(s[1..], sub, i - 1);
        ContainsIffOccurs(s[1..], sub);
      }
    }
  }

  /** `s.substring(0, n)`: the first `n` characters, or all of `s` when shorter. */
  function Prefix(s: string, n: nat): (r: string)
    ensures |r| == if |s| <= n then |s| else n
    ensures r == s[..|r|]
  {
    if |s| <= n then s else s[..n]
  }

  /** Every prefix of a string occurs in it. */
  lemma PrefixContained(s: string, n: nat)
    ensures Contains(s, Prefix(s, n))
  {
  }

  /** `toLowerCase` on one character; only the ASCII letters are mapped. */
  function LowerChar(c: char): char
  {
    if 'A' <= c <= 'Z' then (c as int + 32) as char else c
  }

  /** `toLowerCase` on a string, character by character. */
  function Lower(s: string): (r: string)
    ensures |r| == |s|
    ensures forall i :: 0 <= i < |s| ==> r[i] == LowerChar(s[i])
  {
    if s == [] then [] else [LowerChar(s[0])] + Lower(s[1..])
  }

  /** Lower-casing twice is lower-casing once. */
  lemma LowerIdempotent(s: string)
    ensures Lower(Lower(s)) == Lower(s)
  {
    var l := Lower(s);
    assert forall i :: 0 <= i < |l| ==> Lower(l)[i] == l[i];
  }

  /** The five fixed phrases (already in lower case) that end a call once an
      email has been collected. */
  const GoodbyePhrases: seq<string> := [
    "have a great day",
    "goodbye",
    "thank you for your time",
    "you're all set",
    "first newsletter will arrive"
  ]

  /** The text delta, lower-cased, contains one of the goodbye phrases. */
  predicate IsGoodbye(delta: string)
  {
    exists i :: 0 <= i < |GoodbyePhrases| && Contains(Lower(delta), GoodbyePhrases[i])
  }

  /** The goodbye test ignores the case of the delta. */
  lemma GoodbyeIgnoresCase(delta: string)
    ensures IsGoodbye(delta) <==> IsGoodbye(Lower(delta))
  {
    LowerIdempotent(delta);
  }

  /** A delta in which a phrase appears, in any mix of ASCII cases, is a goodbye. */
  lemma {:induction false} GoodbyeDetected(delta: string, k: nat, i: nat)
    requires k < |GoodbyePhrases|
    requires OccursAt(Lower(delta), GoodbyePhrases[k], i)
    ensures IsGoodbye(delta)
  {
    ContainsIffOccurs(Lower(delta), GoodbyePhrases[k]);
  }

  /** The stream-start heuristic: the first ten characters of either identifier
      occur in the other one. */
  predicate FuzzyMatch(key: string, streamSid: string)
  {
    Contains(streamSid, Prefix(key, 10)) || Contains(key, Prefix(streamSid, 10))
  }

  /** The heuristic is symmetric and accepts equal identifiers. */
  lemma FuzzyMatchSymmetricReflexive(a: string, b: string)
    ensures FuzzyMatch(a, b) <==> FuzzyMatch(b, a)
    ensures FuzzyMatch(a, a)
  {
    PrefixContained(a, 10);
  }

  /** It also accepts different identifiers that share their first ten
      characters, and an empty identifier matches every other one: the false
      positives of the heuristic. */
  lemma FuzzyMatchFalsePositives(a: string, b: string)
    ensures |a| >= 10 && |b| >= 10 && a[..10] == b[..10] ==> FuzzyMatch(a, b)
    ensures FuzzyMatch("", b) && FuzzyMatch(a, "")
  {
  }

  /** The test `endCall` applies to a listed call when it only knows the stream
      identifier: equal, or containing the stream identifier's first ten
      characters. */
  predicate EndCallMatch(sid: string, streamSid: string)
  {
    sid == streamSid || Contains(sid, Prefix(streamSid, 10))
  }

  /** The equality case of `endCall`'s test is subsumed by the containment
      case, and every listed call it accepts would also pass the stream-start
      heuristic. */
  lemma EndCallMatchIsOneSidedFuzzy(sid: string, streamSid: string)
    ensures EndCallMatch(sid, streamSid) <==> Contains(sid, Prefix(streamSid, 10))
    ensures EndCallMatch(sid, streamSid) ==> FuzzyMatch(sid, streamSid)
  {
    PrefixContained(sid, 10);
  }
}
