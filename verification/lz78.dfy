/** LZ78 complexity of a sequence of packet lengths: how many phrases the parse needs. */
module Lz78 {
  import opened Common

  // --- The parse ---

  /** The phrases found so far, oldest first, and the symbols read since the last one ended. */
  datatype Parsed = Parsed(phrases: seq<seq<nat>>, rest: seq<nat>)

  /** A phrase ends with the first symbol that makes it new. */
  function Parse(s: seq<nat>): Parsed
  {
    if s == [] then Parsed([], [])
    else
      var before := Parse(s[..|s| - 1]);
      var cur := before.rest + [s[|s| - 1]];
      if cur in before.phrases then before.(rest := cur) else Parsed(before.phrases + [cur], [])
  }

  /** All prefixes of `p`, down to one symbol, are in `phrases`. */
  predicate Covered(p: seq<nat>, phrases: seq<seq<nat>>)
  {
    p == [] || (p in phrases && Covered(p[..|p| - 1], phrases))
  }

  /** A phrase is new, and extends an earlier one (or none) by one symbol. */
  predicate Extends(p: seq<nat>, earlier: seq<seq<nat>>)
  {
    p != [] && p !in earlier && Covered(p[..|p| - 1], earlier)
  }

  predicate Grown(phrases: seq<seq<nat>>)
  {
    phrases == [] || (Grown(phrases[..|phrases| - 1]) && Extends(phrases[|phrases| - 1], phrases[..|phrases| - 1]))
  }

  /** What makes a list of phrases the LZ78 parse of `s`. */
  predicate IsParse(s: seq<nat>, p: Parsed)
  {
    Flatten(p.phrases) + p.rest == s && Grown(p.phrases) && Covered(p.rest, p.phrases)
  }

  /** Phrases and residual give back the input; phrases are distinct; every phrase extends an earlier
      one (or none) by one symbol; and the residual is itself a phrase, or empty. */
  lemma {:induction false} ParseIsParse(s: seq<nat>)
    ensures IsParse(s, Parse(s))
  {
    if s != [] {
      var front, last := s[..|s| - 1], s[|s| - 1];
      ParseIsParse(front);
      var before := Parse(front);
      var cur := before.rest + [last];
      assert Flatten(before.phrases) + cur == s;
      OneMorePhrase(before, cur, last);
      hide Covered, Grown, Flatten;
    }
  }

  lemma OneMorePhrase(p: Parsed, cur: seq<nat>, last: nat)
    requires Grown(p.phrases) && Covered(p.rest, p.phrases) && cur == p.rest + [last]
    ensures cur in p.phrases ==> Covered(cur, p.phrases)
    ensures cur !in p.phrases ==> Grown(p.phrases + [cur])
    ensures Flatten(p.phrases + [cur]) == Flatten(p.phrases) + cur
    ensures Covered([], p.phrases + [cur])
  {
    assert cur[..|cur| - 1] == p.rest;
    assert (p.phrases + [cur])[..|p.phrases|] == p.phrases;
  }

  /** A parse before its last symbol. */
  lemma Undo(s: seq<nat>, p: Parsed) returns (front: Parsed)
    requires IsParse(s, p) && s != []
    ensures IsParse(s[..|s| - 1], front)
    ensures var cur := front.rest + [s[|s| - 1]];
            p == if cur in front.phrases then front.(rest := cur) else Parsed(front.phrases + [cur], [])
  {
    if p.rest != [] {
      front := Parsed(p.phrases, p.rest[..|p.rest| - 1]);
      assert s[..|s| - 1] == Flatten(p.phrases) + front.rest;
      assert front.rest + [s[|s| - 1]] == p.rest;
    } else {
      var n := |p.phrases| - 1;
      var last := p.phrases[n];
      front := Parsed(p.phrases[..n], last[..|last| - 1]);
      assert s[..|s| - 1] == Flatten(front.phrases) + front.rest;
      assert front.rest + [s[|s| - 1]] == last;
    }
  }

  /** There is only one such parse. */
  lemma {:induction false} ParseIsUnique(s: seq<nat>, p: Parsed)
    requires IsParse(s, p)
    ensures p == Parse(s)
  {
    if s != [] {
      var front := Undo(s, p);
      ParseIsUnique(s[..|s| - 1], front);
      hide IsParse;
    }
  }

  /** Phrases are pairwise distinct, and each is one symbol or extends an earlier phrase by one. */
  lemma {:induction false} PhrasesAreDistinctAndPrefixClosed(phrases: seq<seq<nat>>, k: nat)
    requires Grown(phrases) && k < |phrases|
    ensures var p := phrases[k]; p != [] && p !in phrases[..k] && (|p| == 1 || p[..|p| - 1] in phrases[..k])
    ensures Grown(phrases[..k])
  {
    var n := |phrases| - 1;
    if k < n {
      PhrasesAreDistinctAndPrefixClosed(phrases[..n], k);
      assert phrases[..n][..k] == phrases[..k];
    }
  }

  // --- How many phrases ---

  lemma {:induction false} PhraseLength(phrases: seq<seq<nat>>, k: nat)
    requires Grown(phrases) && k < |phrases|
    ensures 1 <= |phrases[k]| <= k + 1
  {
    var p := phrases[k];
    PhrasesAreDistinctAndPrefixClosed(phrases, k);
    if |p| > 1 {
      var j :| 0 <= j < k && phrases[j] == p[..|p| - 1];
      PhraseLength(phrases, j);
    }
  }

  lemma {:induction false} FlattenLength(phrases: seq<seq<nat>>)
    requires forall k :: 0 <= k < |phrases| ==> 1 <= |phrases[k]| <= k + 1
    ensures |phrases| <= |Flatten(phrases)|
    ensures 2 * |Flatten(phrases)| <= |phrases| * (|phrases| + 1)
  {
    var c := |phrases|;
    if c > 0 {
      FlattenLength(phrases[..c - 1]);
      assert (c - 1) * c + 2 * c == c * (c + 1);
    }
  }

  /** A sequence of `n` symbols needs at most `n` phrases, and so many that `n <= c(c+3)/2`. */
  lemma PhraseBounds(s: seq<nat>)
    ensures var c := |Parse(s).phrases|; c <= |s| && 2 * |s| <= c * (c + 3)
  {
    var p := Parse(s);
    var c := |p.phrases|;
    ParseIsParse(s);
    hide Parse;
    forall k: nat | k < c ensures 1 <= |p.phrases[k]| <= k + 1 {
      PhraseLength(p.phrases, k);
    }
    FlattenLength(p.phrases);
    hide Grown, Flatten;
    if p.rest != [] {
      var j: nat :| j < c && p.phrases[j] == p.rest;
    }
    assert c * (c + 1) + 2 * c == c * (c + 3);
  }

  // --- String keys ---

  function Digit(d: nat): char
    requires d < 10
  {
    '0' + d as char
  }

  /** `std::to_string` of an unsigned number. */
  function ToString(n: nat): string
  {
    if n < 10 then [Digit(n)] else ToString(n / 10) + [Digit(n % 10)]
  }

  /** The dictionary key of a phrase: its numbers, each followed by a bar. */
  function Key(p: seq<nat>): string
  {
    if p == [] then "" else ToString(p[0]) + "|" + Key(p[1..])
  }

  lemma {:induction false} NoBar(n: nat)
    ensures ToString(n) != [] && forall i :: 0 <= i < |ToString(n)| ==> ToString(n)[i] != '|'
  {
    if n >= 10 {
      NoBar(n / 10);
    }
  }

  lemma {:induction false} ToStringInjective(m: nat, n: nat)
    requires ToString(m) == ToString(n)
    ensures m == n
  {
    var a, b := ToString(m), ToString(n);
    assert a[|a| - 1] == Digit(m % 10) && b[|b| - 1] == Digit(n % 10);
    assert m % 10 == n % 10;
    if m >= 10 && n >= 10 {
      assert a[..|a| - 1] == ToString(m / 10) && b[..|b| - 1] == ToString(n / 10);
      ToStringInjective(m / 10, n / 10);
    } else {
      NoBar(m / 10);
      NoBar(n / 10);
    }
  }

  /** Different phrases have different keys, so searching by key is searching by phrase. */
  lemma {:induction false} KeyInjective(p: seq<nat>, q: seq<nat>)
    requires Key(p) == Key(q)
    ensures p == q
    decreases |p|
  {
    if p != [] && q != [] {
      var a, b := ToString(p[0]), ToString(q[0]);
      NoBar(p[0]);
      NoBar(q[0]);
      assert Key(p)[|a|] == '|' && forall i :: 0 <= i < |a| ==> Key(p)[i] == a[i];
      assert Key(q)[|b|] == '|' && forall i :: 0 <= i < |b| ==> Key(q)[i] == b[i];
      assert |a| == |b|;
      assert a == Key(p)[..|a|] && b == Key(q)[..|b|];
      ToStringInjective(p[0], q[0]);
      assert Key(p)[|a| + 1..] == Key(p[1..]) && Key(q)[|b| + 1..] == Key(q[1..]);
      KeyInjective(p[1..], q[1..]);
      assert p == [p[0]] + p[1..] && q == [q[0]] + q[1..];
    }
  }

  lemma {:induction false} KeyOfOneMore(p: seq<nat>, x: nat)
    ensures Key(p + [x]) == Key(p) + (ToString(x) + "|")
  {
    if p == [] {
      assert [x][1..] == [] && Key([]) == "";
    } else {
      assert (p + [x])[1..] == p[1..] + [x];
      KeyOfOneMore(p[1..], x);
    }
  }

  // --- The loop ---

  ghost predicate Keys(dict: set<string>, phrases: seq<seq<nat>>)
  {
    && (forall p <- phrases :: Key(p) in dict)
    && (forall k <- dict :: exists p :: p in phrases && Key(p) == k)
  }

  lemma KeyLookup(dict: set<string>, phrases: seq<seq<nat>>, p: seq<nat>)
    requires Keys(dict, phrases)
    ensures Key(p) in dict <==> p in phrases
  {
    if Key(p) in dict {
      var q :| q in phrases && Key(q) == Key(p);
      KeyInjective(p, q);
    }
  }

  lemma KeyInsert(dict: set<string>, phrases: seq<seq<nat>>, p: seq<nat>)
    requires Keys(dict, phrases)
    ensures Keys(dict + {Key(p)}, phrases + [p])
  {
    forall k | k in dict + {Key(p)} ensures exists q :: q in phrases + [p] && Key(q) == k {
      if k in dict {
        var q :| q in phrases && Key(q) == k;
        assert q in phrases + [p];
      } else {
        assert p in phrases + [p];
      }
    }
  }

  /** One more symbol: looking up its key decides whether it ends a phrase. */
  lemma NextSymbol(s: seq<nat>, i: nat, j: nat, dict: set<string>)
    requires i <= j < |s| && Parse(s[..j]).rest == s[i..j] && Keys(dict, Parse(s[..j]).phrases)
    ensures var key, now := Key(s[i..j]) + (ToString(s[j]) + "|"), Parse(s[..j + 1]);
            && key == Key(s[i..j + 1])
            && (key in dict ==> now == Parsed(Parse(s[..j]).phrases, s[i..j + 1]))
            && (key !in dict ==> now == Parsed(Parse(s[..j]).phrases + [s[i..j + 1]], [])
                                 && Keys(dict + {key}, now.phrases))
  {
    var before, cur := Parse(s[..j]), s[i..j + 1];
    assert s[i..j] + [s[j]] == cur;
    ParseOneMore(s, j);
    hide *;
    KeyOfOneMore(s[i..j], s[j]);
    KeyLookup(dict, before.phrases, cur);
    KeyInsert(dict, before.phrases, cur);
  }

  lemma ParseOneMore(s: seq<nat>, j: nat)
    requires j < |s|
    ensures var before := Parse(s[..j]);
            var cur := before.rest + [s[j]];
            Parse(s[..j + 1]) == if cur in before.phrases then before.(rest := cur) else Parsed(before.phrases + [cur], [])
  {
    assert s[..j + 1][..j] == s[..j];
  }

  /** The loops are at symbol `i`, between phrases. */
  ghost predicate Between(s: seq<nat>, i: nat, dict: set<string>, phrases: nat)
  {
    && i <= |s| && Parse(s[..i]).rest == []
    && phrases == |Parse(s[..i]).phrases| && Keys(dict, Parse(s[..i]).phrases)
  }

  /** They have read symbols `i` to `j - 1` of a phrase, with key `cur`. */
  ghost predicate Reading(s: seq<nat>, i: nat, j: nat, dict: set<string>, phrases: nat, cur: string)
  {
    && i <= j <= |s| && Parse(s[..j]).rest == s[i..j] && cur == Key(s[i..j])
    && phrases == |Parse(s[..j]).phrases| && Keys(dict, Parse(s[..j]).phrases)
  }

  lemma NothingParsed(s: seq<nat>)
    ensures Between(s, 0, {}, 0)
  {
  }

  lemma StartsReading(s: seq<nat>, i: nat, dict: set<string>, phrases: nat)
    requires Between(s, i, dict, phrases)
    ensures Reading(s, i, i, dict, phrases, "")
  {
    assert s[i..i] == [] && Key([]) == "";
  }

  lemma ReadsOn(s: seq<nat>, i: nat, j: nat, dict: set<string>, phrases: nat, cur: string)
    requires j < |s| && Reading(s, i, j, dict, phrases, cur)
    ensures var key := cur + (ToString(s[j]) + "|");
            if key in dict then Reading(s, i, j + 1, dict, phrases, key)
            else Between(s, j + 1, dict + {key}, phrases + 1)
  {
    NextSymbol(s, i, j, dict);
    hide Parse, Keys, Key, ToString;
  }

  lemma AllRead(s: seq<nat>, dict: set<string>, phrases: nat)
    ensures Between(s, |s|, dict, phrases) ==> phrases == |Parse(s).phrases|
    ensures forall i, cur :: Reading(s, i, |s|, dict, phrases, cur) ==> phrases == |Parse(s).phrases|
  {
    assert s[..|s|] == s;
    hide Parse, Keys, Key;
  }

  /** Sequences of fewer than two packets have complexity 0. */
  method Complexity(s: seq<nat>) returns (phrases: nat)
    ensures phrases == if |s| <= 1 then 0 else |Parse(s).phrases|
  {
    hide *;
    var n := |s|;
    if n <= 1 {
      return 0;
    }
    var dict: set<string> := {};
    var i := 0;
    phrases := 0;
    NothingParsed(s);
    while i < n
      invariant 0 <= i <= n + 1
      invariant i <= n ==> Between(s, i, dict, phrases)
      invariant i > n ==> phrases == |Parse(s).phrases|
      decreases n + 1 - i
    {
      var cur := "";
      var j := i;
      StartsReading(s, i, dict, phrases);
      while j < n
        invariant i <= j <= n && Reading(s, i, j, dict, phrases, cur)
      {
        ReadsOn(s, i, j, dict, phrases, cur);
        cur := cur + (ToString(s[j]) + "|");
        if cur !in dict {
          dict := dict + {cur};
          phrases := phrases + 1;
          break;
        }
        j := j + 1;
      }
      AllRead(s, dict, phrases);
      i := j + 1;
    }
    AllRead(s, dict, phrases);
  }
}
