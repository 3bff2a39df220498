/** `deduplicateArticles` (app.js): a stable filter that keeps the first
    article of each title key and drops every later one with the same key.
    The reasoning is carried out for any key function and applied to
    `TitleKey`. */
module Deduplication {
  import opened Prelude
  import opened JsStrings
  import opened Feeds

  /** The dedup identity `article.title.toLowerCase().trim()`. */
  function TitleKey(a: Article): string
  {
    Trim(ToLower(a.title))
  }

  function KeysOf<T>(s: seq<T>, key: T -> string): set<string>
  {
    set i | 0 <= i < |s| :: key(s[i])
  }

  /** Position `i` holds the first element of `s` with its key. */
  ghost predicate IsFirst<T>(s: seq<T>, key: T -> string, i: int)
  {
    0 <= i < |s| && forall j :: 0 <= j < i ==> key(s[j]) != key(s[i])
  }

  ghost predicate DistinctKeys<T>(s: seq<T>, key: T -> string)
  {
    forall k, l :: 0 <= k < l < |s| ==> key(s[k]) != key(s[l])
  }

  /** Reading `s` from the left, keep each element whose key has not been seen. */
  function DedupBy<T>(s: seq<T>, key: T -> string): seq<T>
    decreases |s|
  {
    if s == [] then []
    else if key(s[|s| - 1]) in KeysOf(s[..|s| - 1], key) then DedupBy(s[..|s| - 1], key)
    else DedupBy(s[..|s| - 1], key) + [s[|s| - 1]]
  }

  /** What `deduplicateArticles` returns for `s`. */
  function Dedup(s: seq<Article>): seq<Article>
  {
    DedupBy(s, TitleKey)
  }

  lemma KeyOfMember<T>(s: seq<T>, x: T, key: T -> string)
    requires x in s
    ensures key(x) in KeysOf(s, key)
  {
    var i :| 0 <= i < |s| && s[i] == x;
  }

  lemma KeysOfSnoc<T>(s: seq<T>, a: T, key: T -> string)
    ensures KeysOf(s + [a], key) == KeysOf(s, key) + {key(a)}
  {
    var t := s + [a];
    assert forall i :: 0 <= i < |s| ==> t[i] == s[i];
    assert t[|s|] == a;
  }

  lemma KeysOfCons<T>(a: T, s: seq<T>, key: T -> string)
    ensures KeysOf([a] + s, key) == {key(a)} + KeysOf(s, key)
  {
    var t := [a] + s;
    assert forall i :: 0 <= i < |s| ==> t[i + 1] == s[i];
    assert forall i :: 1 <= i < |t| ==> t[i] == s[i - 1];
    assert t[0] == a;
  }

  /** The keys of a list depend only on its elements, not on their order. */
  lemma KeysOfPermutation<T>(r: seq<T>, s: seq<T>, key: T -> string)
    requires multiset(r) == multiset(s)
    ensures KeysOf(r, key) == KeysOf(s, key)
  {
    forall x | x in KeysOf(r, key)
      ensures x in KeysOf(s, key)
    {
      var i :| 0 <= i < |r| && key(r[i]) == x;
      assert r[i] in multiset(s);
      var j :| 0 <= j < |s| && s[j] == r[i];
    }
    forall x | x in KeysOf(s, key)
      ensures x in KeysOf(r, key)
    {
      var j :| 0 <= j < |s| && key(s[j]) == x;
      assert s[j] in multiset(r);
      var i :| 0 <= i < |r| && r[i] == s[j];
    }
  }

  /** A list headed by `a` has distinct keys exactly when its tail has and
      `a`'s key is not among the tail's. */
  lemma DistinctKeysCons<T>(a: T, s: seq<T>, key: T -> string)
    ensures DistinctKeys([a] + s, key) <==> key(a) !in KeysOf(s, key) && DistinctKeys(s, key)
  {
    var t := [a] + s;
    assert forall i :: 0 <= i < |s| ==> t[i + 1] == s[i];
    if DistinctKeys(t, key) {
      forall i | 0 <= i < |s|
        ensures key(s[i]) != key(a)
      {
        assert key(t[0]) != key(t[i + 1]);
      }
    }
    if key(a) !in KeysOf(s, key) && DistinctKeys(s, key) {
      forall k, l | 0 <= k < l < |t|
        ensures key(t[k]) != key(t[l])
      {
        assert t[l] == s[l - 1];
        if k > 0 {
          assert t[k] == s[k - 1];
        } else {
          assert key(s[l - 1]) in KeysOf(s, key);
        }
      }
    }
  }

  /** One step of the loop below: reading `s[i]` with the keys and the
      output of `s[..i]` in hand. */
  lemma DedupStep<T>(s: seq<T>, i: int, key: T -> string, seen: set<string>, deduped: seq<T>)
    requires 0 <= i < |s|
    requires seen == KeysOf(s[..i], key) && deduped == DedupBy(s[..i], key)
    ensures KeysOf(s[..i + 1], key) == seen + {key(s[i])}
    ensures key(s[i]) in seen ==> DedupBy(s[..i + 1], key) == deduped
    ensures key(s[i]) !in seen ==> DedupBy(s[..i + 1], key) == deduped + [s[i]]
  {
    assert s[..i + 1] == s[..i] + [s[i]];
    assert s[..i + 1][..i] == s[..i];
    KeysOfSnoc(s[..i], s[i], key);
  }

  /** `deduplicateArticles(articles)`: the `seen` Map becomes the set of keys
      met so far, `deduped` the list pushed onto. */
  method DeduplicateArticles(articles: seq<Article>) returns (deduped: seq<Article>)
    ensures deduped == Dedup(articles)
  {
    var seen: set<string> := {};
    deduped := [];
    var i := 0;
    while i < |articles|
      invariant 0 <= i <= |articles|
      invariant seen == KeysOf(articles[..i], TitleKey)
      invariant deduped == DedupBy(articles[..i], TitleKey)
    {
      var key := TitleKey(articles[i]);
      DedupStep(articles, i, TitleKey, seen, deduped);
      if key !in seen {
        seen := seen + {key};
        deduped := deduped + [articles[i]];
      }
      i := i + 1;
    }
    assert articles[..i] == articles;
  }

  /** The output is the subsequence of the input at exactly the positions
      holding the first element of each key, in input order: so each key
      keeps its first occurrence and nothing else. */
  lemma {:induction false} DedupSelectsFirsts<T>(s: seq<T>, key: T -> string) returns (idx: seq<int>)
    ensures SelectedBy(DedupBy(s, key), s, idx)
    ensures forall k :: 0 <= k < |idx| ==> IsFirst(s, key, idx[k])
    ensures forall i :: IsFirst(s, key, i) ==> i in idx
    decreases |s|
  {
    if s == [] {
      return [];
    }
    var n := |s| - 1;
    var init := s[..n];
    var sub := DedupSelectsFirsts(init, key);
    SelectedBySnoc(DedupBy(init, key), s, sub, n);
    IsFirstPrefix(s, key, n);
    forall k | 0 <= k < |sub|
      ensures IsFirst(s, key, sub[k])
    {
      assert IsFirst(init, key, sub[k]);
    }
    forall i | 0 <= i < n && IsFirst(s, key, i)
      ensures i in sub
    {
      assert IsFirst(init, key, i);
    }
    if key(s[n]) in KeysOf(init, key) {
      var j :| 0 <= j < n && key(init[j]) == key(s[n]);
      assert !IsFirst(s, key, n);
      assert DedupBy(s, key) == DedupBy(init, key);
      idx := sub;
    } else {
      assert IsFirst(s, key, n) by {
        forall j | 0 <= j < n
          ensures key(s[j]) != key(s[n])
        {
          assert key(init[j]) in KeysOf(init, key);
        }
      }
      assert DedupBy(s, key) == DedupBy(init, key) + [s[n]];
      idx := sub + [n];
      assert forall k :: 0 <= k < |sub| ==> idx[k] == sub[k];
    }
  }

  /** Below `n`, being first in `s` and being first in `s[..n]` agree. */
  lemma IsFirstPrefix<T>(s: seq<T>, key: T -> string, n: int)
    requires 0 <= n <= |s|
    ensures forall i :: 0 <= i < n ==> (IsFirst(s, key, i) <==> IsFirst(s[..n], key, i))
  {
    assert forall i :: 0 <= i < n ==> s[..n][i] == s[i];
  }

  /** Deduplication never lengthens a list. */
  lemma {:induction false} DedupShorter<T>(s: seq<T>, key: T -> string)
    ensures |DedupBy(s, key)| <= |s|
    decreases |s|
  {
    if s != [] {
      DedupShorter(s[..|s| - 1], key);
    }
  }

  /** Deduplication only drops elements. */
  lemma {:induction false} DedupSubset<T>(s: seq<T>, key: T -> string)
    ensures forall x :: x in DedupBy(s, key) ==> x in s
    decreases |s|
  {
    if s != [] {
      var n := |s| - 1;
      DedupSubset(s[..n], key);
      assert forall x :: x in s[..n] ==> x in s;
    }
  }

  /** No two elements of the output share a key. */
  lemma DedupDistinctKeys<T>(s: seq<T>, key: T -> string)
    ensures DistinctKeys(DedupBy(s, key), key)
  {
    var idx := DedupSelectsFirsts(s, key);
    var r := DedupBy(s, key);
    forall k, l | 0 <= k < l < |r|
      ensures key(r[k]) != key(r[l])
    {
      assert IsFirst(s, key, idx[l]) && idx[k] < idx[l];
    }
  }

  /** Every key of the input is still present in the output. */
  lemma {:induction false} DedupKeepsKeys<T>(s: seq<T>, key: T -> string)
    ensures KeysOf(DedupBy(s, key), key) == KeysOf(s, key)
    decreases |s|
  {
    if s != [] {
      var n := |s| - 1;
      assert s == s[..n] + [s[n]];
      DedupKeepsKeys(s[..n], key);
      KeysOfSnoc(s[..n], s[n], key);
      if key(s[n]) !in KeysOf(s[..n], key) {
        KeysOfSnoc(DedupBy(s[..n], key), s[n], key);
      }
    }
  }

  /** A list whose keys are already distinct passes through unchanged. */
  lemma {:induction false} DedupOfDistinct<T>(s: seq<T>, key: T -> string)
    requires DistinctKeys(s, key)
    ensures DedupBy(s, key) == s
    decreases |s|
  {
    if s != [] {
      var n := |s| - 1;
      var init := s[..n];
      assert forall i :: 0 <= i < n ==> init[i] == s[i];
      assert DistinctKeys(init, key);
      DedupOfDistinct(init, key);
      assert forall j :: 0 <= j < n ==> key(init[j]) != key(s[n]);
      assert init + [s[n]] == s;
    }
  }

  /** Deduplicating twice is deduplicating once. */
  lemma DedupIdempotent<T>(s: seq<T>, key: T -> string)
    ensures DedupBy(DedupBy(s, key), key) == DedupBy(s, key)
  {
    DedupDistinctKeys(s, key);
    DedupOfDistinct(DedupBy(s, key), key);
  }
}
