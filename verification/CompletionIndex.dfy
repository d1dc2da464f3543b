/** The prefix index behind tab completion (client/completion_hash.cc): every non-empty prefix of every
    added word has a bucket. The index must agree with the plain list of added words. */
module CompletionIndex {
  import opened Text

  // ---------- the list of words ----------

  /** The words that start with p, in list order. */
  ghost function Matches(words: seq<string>, p: string): seq<string> {
    if words == [] then []
    else if p <= words[0] then [words[0]] + Matches(words[1..], p)
    else Matches(words[1..], p)
  }

  lemma MatchesCons(w: string, words: seq<string>, p: string)
    ensures Matches([w] + words, p) == if p <= w then [w] + Matches(words, p) else Matches(words, p)
  {
    assert ([w] + words)[1..] == words;
  }

  lemma {:induction false} MatchesAre(words: seq<string>, p: string)
    ensures forall w :: w in Matches(words, p) <==> w in words && p <= w
  {
    if words != [] { MatchesAre(words[1..], p); }
  }

  /** A longer prefix selects from the words of a shorter one; equally many are the same ones. */
  lemma {:induction false} MatchesNarrow(words: seq<string>, p: string, q: string)
    requires p <= q
    ensures |Matches(words, q)| <= |Matches(words, p)|
    ensures |Matches(words, q)| == |Matches(words, p)| ==> Matches(words, q) == Matches(words, p)
  {
    if words != [] { MatchesNarrow(words[1..], p, q); }
  }

  /** All of the words begin with the first n characters of the first one. */
  ghost predicate Common(ws: seq<string>, n: nat) {
    ws != [] && forall w :: w in ws ==> n <= |w| && n <= |ws[0]| && w[..n] == ws[0][..n]
  }

  ghost predicate LongestCommon(ws: seq<string>, n: nat) {
    Common(ws, n) && forall m :: m > n ==> !Common(ws, m)
  }

  // ---------- buckets ----------

  datatype Bucket = Bucket(h: nat, arKey: string, nKeyLength: nat, count: nat, pData: seq<string>) {
    function Key(): string { if nKeyLength <= |arKey| then arKey[..nKeyLength] else arKey }
  }

  /** The entries of the bucket for p in a chain. */
  ghost function Entries(chain: seq<Bucket>, p: string): seq<string> {
    if chain == [] then [] else if chain[0].Key() == p then chain[0].pData else Entries(chain[1..], p)
  }

  ghost predicate GoodBucket(hash: string -> nat, n: nat, i: nat, b: Bucket)
    requires n > 0
  {
    && 0 < b.nKeyLength <= |b.arKey| && b.h == hash(b.Key()) && b.h % n == i
    && b.count == |b.pData| > 0
  }

  ghost predicate GoodChain(hash: string -> nat, n: nat, i: nat, chain: seq<Bucket>)
    requires n > 0
  {
    && (forall k :: 0 <= k < |chain| ==> GoodBucket(hash, n, i, chain[k]))
    && forall j, k :: 0 <= j < k < |chain| ==> chain[j].Key() != chain[k].Key()
  }

  lemma {:induction false} EntriesAt(chain: seq<Bucket>, p: string, k: nat)
    requires k <= |chain| && forall j :: 0 <= j < k ==> chain[j].Key() != p
    ensures k < |chain| && chain[k].Key() == p ==> Entries(chain, p) == chain[k].pData
    ensures k == |chain| ==> Entries(chain, p) == []
    decreases k
  {
    if k > 0 {
      assert forall j :: 0 <= j < k - 1 ==> chain[1..][j] == chain[j + 1];
      EntriesAt(chain[1..], p, k - 1);
    }
  }

  /** Changing the entries of one bucket of a chain. */
  lemma {:induction false} EntriesUpdated(chain: seq<Bucket>, k: nat, b: Bucket, p: string)
    requires k < |chain| && b.Key() == chain[k].Key() && forall j :: 0 <= j < k ==> chain[j].Key() != chain[k].Key()
    ensures Entries(chain[k := b], p) == if p == b.Key() then b.pData else Entries(chain, p)
    decreases k
  {
    if k > 0 {
      assert chain[k := b][1..] == chain[1..][k - 1 := b];
      assert forall j :: 0 <= j < k - 1 ==> chain[1..][j] == chain[j + 1];
      EntriesUpdated(chain[1..], k - 1, b, p);
    } else {
      assert chain[0 := b][1..] == chain[1..];
    }
  }

  /** The non-empty prefixes of a word shorter than i. */
  ghost predicate PrefixBelow(str: string, i: nat, p: string) { p != "" && p <= str && |p| < i }

  lemma NoPrefixBelow(str: string)
    ensures forall p :: !PrefixBelow(str, 1, p)
  {
  }

  lemma NextPrefix(str: string, i: nat)
    requires 1 <= i <= |str|
    ensures forall p :: PrefixBelow(str, i + 1, p) <==> PrefixBelow(str, i, p) || p == str[..i]
    ensures !PrefixBelow(str, i, str[..i])
  {
    forall p ensures PrefixBelow(str, i + 1, p) <==> PrefixBelow(str, i, p) || p == str[..i] {
      assert p <= str && |p| == i <==> p == str[..i];
    }
  }

  class HashTable {
    const hash: string -> nat
    const arBuckets: array<seq<Bucket>>
    /** The words added, newest first. */
    ghost var words: seq<string>

    ghost predicate Shaped()
      reads arBuckets
    {
      && arBuckets.Length > 0
      && forall i :: 0 <= i < arBuckets.Length ==> GoodChain(hash, arBuckets.Length, i, arBuckets[i])
    }

    ghost function Data(p: string): seq<string>
      requires arBuckets.Length > 0
      reads arBuckets
    {
      Entries(arBuckets[hash(p) % arBuckets.Length], p)
    }

    /** The index agrees with the list of words. */
    ghost predicate Valid()
      reads this, arBuckets
    {
      Shaped() && forall p :: p != "" ==> Data(p) == Matches(words, p)
    }

    /** `completion_hash_init`. */
    constructor (hash: string -> nat, size: nat)
      requires size > 0
      ensures Valid() && words == [] && this.hash == hash && fresh(arBuckets)
    {
      this.hash := hash;
      words := [];
      arBuckets := new seq<Bucket>[size](_ => []);
    }

    /** The position of the bucket for a key in its chain. */
    method Search(key: string) returns (k: nat)
      requires Shaped()
      ensures var chain := arBuckets[hash(key) % arBuckets.Length];
              && k <= |chain| && (k < |chain| ==> chain[k].Key() == key && |key| > 0 && chain[k].pData == Data(key))
              && (forall j :: 0 <= j < k ==> chain[j].Key() != key)
              && (k == |chain| ==> Data(key) == [])
              && (k < |chain| ==> GoodBucket(hash, arBuckets.Length, hash(key) % arBuckets.Length, chain[k]))
    {
      var h := hash(key);
      var chain := arBuckets[h % arBuckets.Length];
      k := 0;
      while k < |chain|
        invariant k <= |chain| && forall j :: 0 <= j < k ==> chain[j].Key() != key
      {
        var p := chain[k];
        assert GoodBucket(hash, arBuckets.Length, h % arBuckets.Length, p);
        if p.h == h && p.nKeyLength == |key| && p.arKey[..|key|] == key { break; }
        k := k + 1;
      }
      EntriesAt(chain, key, k);
    }

    /** `completion_hash_update`: one more entry for a key. */
    method Update(arKey: string, nKeyLength: nat, str: string) returns (ok: bool)
      requires Shaped() && nKeyLength <= |arKey|
      modifies arBuckets
      ensures Shaped() && ok == (nKeyLength > 0)
      ensures forall p :: Data(p) == if ok && p == arKey[..nKeyLength] then [str] + old(Data(p)) else old(Data(p))
    {
      hide GoodChain;
      var key := arKey[..nKeyLength];
      var h := hash(key);
      var nIndex := h % arBuckets.Length;
      if nKeyLength == 0 { return false; }
      var chain := arBuckets[nIndex];
      var k := Search(key);
      if k < |chain| {
        var b := chain[k].(pData := [str] + chain[k].pData, count := chain[k].count + 1);
        arBuckets[nIndex] := chain[k := b];
        ChainUpdated(hash, arBuckets.Length, nIndex, chain, k, b);
        forall p { EntriesUpdated(chain, k, b, p); }
      } else {
        var b := Bucket(h, arKey, nKeyLength, 1, [str]);
        arBuckets[nIndex] := [b] + chain;
        ChainExtended(hash, arBuckets.Length, nIndex, chain, b);
        assert ([b] + chain)[1..] == chain;
      }
      return true;
    }

    method AddPrefixes(str: string)
      requires Shaped()
      modifies arBuckets
      ensures Shaped()
      ensures forall p :: Data(p) == if PrefixBelow(str, |str| + 1, p) then [str] + old(Data(p)) else old(Data(p))
    {
      hide GoodChain, Entries, PrefixBelow;
      var i := 1;
      NoPrefixBelow(str);
      while i <= |str|
        invariant 1 <= i <= |str| + 1 && Shaped()
        invariant forall p :: Data(p) == if PrefixBelow(str, i, p) then [str] + old(Data(p)) else old(Data(p))
      {
        var ok := Update(str, i, str);
        NextPrefix(str, i);
        i := i + 1;
      }
    }

    /** `add_word`: an entry for every non-empty prefix. */
    method AddWord(str: string)
      requires Valid()
      modifies this`words, arBuckets
      ensures Valid() && words == [str] + old(words)
    {
      hide GoodChain, Entries, Matches;
      AddPrefixes(str);
      words := [str] + words;
      forall p | p != "" ensures Data(p) == Matches(words, p) {
        MatchesCons(str, old(words), p);
        assert PrefixBelow(str, |str| + 1, p) <==> p <= str;
      }
    }

    /** `find_all_matches`, `completion_hash_find`: all added words with the prefix, newest first. */
    method FindAllMatches(str: string) returns (b: Option<Bucket>, resLength: nat)
      requires Valid()
      ensures b.None? <==> str == "" || Matches(words, str) == []
      ensures b.Some? ==> b.value.pData == Matches(words, str) && b.value.count == |Matches(words, str)|
      ensures b.Some? ==> b.value.Key() == str && resLength == |str|
      ensures b.None? ==> resLength == 0
    {
      var k := Search(str);
      var chain := arBuckets[hash(str) % arBuckets.Length];
      if k == |chain| { return None, 0; }
      assert GoodBucket(hash, arBuckets.Length, hash(str) % arBuckets.Length, chain[k]);
      return Some(chain[k]), |str|;
    }

    /** `find_longest_match`: the longest prefix common to all words that start with str, from bucket counts
        and one sample word. */
    method FindLongestMatch(str: string) returns (b: Option<Bucket>, resLength: nat)
      requires Valid()
      ensures b.None? <==> str == "" || Matches(words, str) == []
      ensures b.None? ==> resLength == 0
      ensures b.Some? ==> LongestCommon(Matches(words, str), resLength)
      ensures b.Some? ==> b.value.pData == Matches(words, str) && b.value.Key() == Matches(words, str)[0][..resLength]
    {
      hide Valid, Matches, LongestCommon, Common;
      ghost var ws := Matches(words, str);
      var len;
      b, len := FindAllMatches(str);
      if b.None? { return None, 0; }
      var count, lm, s := b.value.count, |str|, b.value.pData[0];
      SampleStarts(words, str);
      while lm < |s|
        invariant |str| <= lm <= |s| && s == ws[0] && count == |ws| && str <= s
        invariant b.Some? && b.value.pData == ws == Matches(words, s[..lm]) && b.value.Key() == s[..lm]
      {
        MatchesNarrow(words, str, s[..lm + 1]);
        var next;
        next, len := FindAllMatches(s[..lm + 1]);
        if next.None? {
          SampleIsFound(words, str, lm + 1);
          assert false;
        }
        if next.value.count < count {
          SharedUpTo(words, str, lm);
          return b, lm;
        }
        b := next;
        lm := lm + 1;
      }
      SharedUpTo(words, str, lm);
      return b, lm;
    }
  }

  // ---------- chains ----------

  lemma ChainUpdated(hash: string -> nat, n: nat, i: nat, chain: seq<Bucket>, k: nat, b: Bucket)
    requires n > 0 && GoodChain(hash, n, i, chain) && k < |chain| && GoodBucket(hash, n, i, b) && b.Key() == chain[k].Key()
    ensures GoodChain(hash, n, i, chain[k := b])
  {
  }

  lemma ChainExtended(hash: string -> nat, n: nat, i: nat, chain: seq<Bucket>, b: Bucket)
    requires n > 0 && GoodChain(hash, n, i, chain) && GoodBucket(hash, n, i, b)
    requires forall k :: 0 <= k < |chain| ==> chain[k].Key() != b.Key()
    ensures GoodChain(hash, n, i, [b] + chain)
  {
  }

  // ---------- the longest match ----------

  lemma SampleStarts(words: seq<string>, p: string)
    ensures var ws := Matches(words, p);
            ws != [] ==> p <= ws[0] && ws[0][..|p|] == p
  {
    MatchesAre(words, p);
    var ws := Matches(words, p);
    assert ws != [] ==> ws[0] in ws;
  }

  lemma SampleIsFound(words: seq<string>, p: string, n: nat)
    requires Matches(words, p) != [] && |p| <= n <= |Matches(words, p)[0]|
    ensures Matches(words, Matches(words, p)[0][..n]) != []
  {
    var s := Matches(words, p)[0];
    MatchesAre(words, p);
    MatchesAre(words, s[..n]);
    assert s in Matches(words, p);
    assert s in Matches(words, s[..n]);
  }

  /** The words with prefix p share the first m characters of the sample exactly when the longer prefix has as many words. */
  lemma SharedIff(words: seq<string>, p: string, m: nat)
    requires var ws := Matches(words, p); ws != [] && |p| <= m
    ensures var ws := Matches(words, p); Common(ws, m) <==> m <= |ws[0]| && Matches(words, ws[0][..m]) == ws
  {
    var ws := Matches(words, p);
    var s := ws[0];
    MatchesAre(words, p);
    assert s in ws && p <= s;
    if m <= |s| {
      var q := s[..m];
      MatchesAre(words, q);
      if Common(ws, m) {
        forall w | w in ws ensures q <= w { }
        SameSelection(words, p, q);
      } else if Matches(words, q) == ws {
        assert forall w :: w in ws ==> q <= w;
        assert Common(ws, m);
      }
    }
  }

  lemma {:induction false} SameSelection(words: seq<string>, p: string, q: string)
    requires p <= q && forall w :: w in Matches(words, p) ==> q <= w
    ensures Matches(words, q) == Matches(words, p)
  {
    if words != [] {
      assert p <= words[0] ==> words[0] in Matches(words, p);
      assert forall w :: w in Matches(words[1..], p) ==> w in Matches(words, p);
      SameSelection(words[1..], p, q);
    }
  }

  lemma SharedUpTo(words: seq<string>, p: string, n: nat)
    requires var ws := Matches(words, p);
             && ws != [] && |p| <= n <= |ws[0]| && Matches(words, ws[0][..n]) == ws
             && (n < |ws[0]| ==> |Matches(words, ws[0][..n + 1])| < |ws|)
    ensures LongestCommon(Matches(words, p), n)
  {
    var ws := Matches(words, p);
    SharedIff(words, p, n);
    forall m | m > n ensures !Common(ws, m) {
      if Common(ws, m) {
        SharedIff(words, p, m);
        MatchesNarrow(words, ws[0][..n + 1], ws[0][..m]);
      }
    }
  }
}
