/** Restoring the line breaks of a PEM key (NormalizePemKey in src/calendar/util/encoding.cpp). */
module Pem {
  import opened Wrappers

  /** A backslash followed by the letter n, as two characters. */
  predicate PairAt(s: string, i: int) {
    0 <= i < |s| - 1 && s[i] == '\\' && s[i + 1] == 'n'
  }

  predicate HasPair(s: string) {
    exists i :: 0 <= i < |s| && PairAt(s, i)
  }

  /** Each pair replaced by a line feed, from left to right. */
  function Normalized(s: string): string {
    if s == [] then []
    else if PairAt(s, 0) then ['\n'] + Normalized(s[2..])
    else [s[0]] + Normalized(s[1..])
  }

  /** The number of positions at which a pair stands. */
  function PairCount(s: string): nat {
    if s == [] then 0 else (if PairAt(s, 0) then 1 else 0) + PairCount(s[1..])
  }

  lemma {:induction false} NoPairLeft(s: string)
    ensures !HasPair(Normalized(s))
    ensures s != [] && s[0] != 'n' ==> Normalized(s)[0] != 'n'
  {
    if s == [] {
    } else {
      var skip := if PairAt(s, 0) then 2 else 1;
      var rest := Normalized(s[skip..]);
      NoPairLeft(s[skip..]);
      forall i | 0 <= i < |Normalized(s)| ensures !PairAt(Normalized(s), i) {
        assert PairAt(Normalized(s), i) && i > 0 ==> PairAt(rest, i - 1);
      }
    }
  }

  lemma {:induction false} WithoutPairs(s: string)
    requires !HasPair(s)
    ensures Normalized(s) == s
  {
    if s == [] {
    } else {
      forall i | 0 <= i < |s[1..]| ensures !PairAt(s[1..], i) {
        assert !PairAt(s, i + 1);
      }
      assert !PairAt(s, 0);
      WithoutPairs(s[1..]);
    }
  }

  /** Normalising leaves no pair, so normalising again changes nothing. */
  lemma Idempotent(s: string)
    ensures Normalized(Normalized(s)) == Normalized(s)
  {
    NoPairLeft(s);
    WithoutPairs(Normalized(s));
  }

  /** The text gets shorter by exactly the number of pairs in it: pairs never overlap. */
  lemma {:induction false} ShorterByPairs(s: string)
    ensures |Normalized(s)| + PairCount(s) == |s|
  {
    if s == [] {
    } else {
      if PairAt(s, 0) {
        ShorterByPairs(s[2..]);
        assert s[1..][1..] == s[2..];
        assert !PairAt(s[1..], 0);
      } else {
        ShorterByPairs(s[1..]);
      }
    }
  }

  /** Each line feed written as a pair. */
  function Expanded(s: string): string {
    if s == [] then []
    else (if s[0] == '\n' then ['\\', 'n'] else [s[0]]) + Expanded(s[1..])
  }

  /** A key whose line feeds were all written as pairs gets exactly them back. */
  lemma {:induction false} ExpandedBack(s: string)
    requires forall i :: 0 <= i < |s| ==> s[i] != '\n'
    ensures Expanded(Normalized(s)) == s
  {
    if s == [] {
    } else {
      if PairAt(s, 0) {
        ExpandedBack(s[2..]);
        assert Normalized(s)[1..] == Normalized(s[2..]);
        assert s == ['\\', 'n'] + s[2..];
      } else {
        ExpandedBack(s[1..]);
        assert Normalized(s)[1..] == Normalized(s[1..]);
        assert s == [s[0]] + s[1..];
      }
    }
  }

  /** The first pair at or after a position, as std::string::find reports it. */
  function FindPair(s: string, from: nat): (r: Option<nat>)
    ensures r.Some? ==> from <= r.value && PairAt(s, r.value) && forall i :: from <= i < r.value ==> !PairAt(s, i)
    ensures r.None? ==> forall i :: from <= i ==> !PairAt(s, i)
    decreases |s| - from
  {
    if from >= |s| then None
    else if PairAt(s, from) then Some(from)
    else FindPair(s, from + 1)
  }

  lemma {:induction false} NormalizedUpTo(s: string, k: nat)
    requires PairAt(s, k) && forall i :: 0 <= i < k ==> !PairAt(s, i)
    ensures Normalized(s) == s[..k] + ['\n'] + Normalized(s[k + 2..])
  {
    if k == 0 {
    } else {
      forall i | 0 <= i < k - 1 ensures !PairAt(s[1..], i) {
        assert !PairAt(s, i + 1);
      }
      NormalizedUpTo(s[1..], k - 1);
      assert s[1..][k + 1..] == s[k + 2..];
      assert [s[0]] + s[1..][..k - 1] == s[..k];
    }
  }

  /** One round of the loop: the pair found is replaced and the search resumes behind it. */
  lemma ReplaceStep(pem: string, pos: nat, at: nat)
    requires pos <= at && PairAt(pem, at) && forall i :: pos <= i < at ==> !PairAt(pem, i)
    ensures var next := pem[..at] + "\n" + pem[at + 2..];
            next[..at + 1] + Normalized(next[at + 1..]) == pem[..pos] + Normalized(pem[pos..])
  {
    var tail := pem[pos..];
    forall i | 0 <= i < at - pos ensures !PairAt(tail, i) {
      assert !PairAt(pem, pos + i);
    }
    NormalizedUpTo(tail, at - pos);
    var next := pem[..at] + "\n" + pem[at + 2..];
    assert next[at + 1..] == pem[at + 2..] == tail[at - pos + 2..];
    assert next[..at + 1] == pem[..pos] + (tail[..at - pos] + ['\n']);
  }

  lemma NoPairBehind(pem: string, pos: nat)
    requires pos <= |pem| && forall i :: pos <= i ==> !PairAt(pem, i)
    ensures pem[..pos] + Normalized(pem[pos..]) == pem
  {
    forall i | 0 <= i < |pem[pos..]| ensures !PairAt(pem[pos..], i) {
      assert !PairAt(pem, pos + i);
    }
    WithoutPairs(pem[pos..]);
  }

  method NormalizePemKey(key: string) returns (pem: string)
    ensures pem == Normalized(key)
  {
    pem := key;
    var pos := 0;
    var found := FindPair(pem, pos);
    while found.Some?
      invariant 0 <= pos <= |pem|
      invariant found == FindPair(pem, pos)
      invariant pem[..pos] + Normalized(pem[pos..]) == Normalized(key)
      decreases |pem| - pos
    {
      ReplaceStep(pem, pos, found.value);
      pem := pem[..found.value] + "\n" + pem[found.value + 2..];
      pos := found.value + 1;
      found := FindPair(pem, pos);
    }
    NoPairBehind(pem, pos);
  }
}
