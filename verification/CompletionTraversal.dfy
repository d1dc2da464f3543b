/** The resumable traversal of the prefix index that hands readline one word per call
    (`new_command_generator` in client/mysql.cc). Between calls only the static cursors survive. */
module CompletionTraversal {
  import opened Text
  import opened CompletionIndex

  // ---------- what a position of the cursors still has to yield ----------

  /** The entries that are whole words of the given length. */
  ghost function Full(entries: seq<string>, n: nat): seq<string> {
    if entries == [] then []
    else if |entries[0]| == n then [entries[0]] + Full(entries[1..], n)
    else Full(entries[1..], n)
  }

  ghost function OfBuckets(chain: seq<Bucket>): seq<string> {
    if chain == [] then [] else Full(chain[0].pData, chain[0].nKeyLength) + OfBuckets(chain[1..])
  }

  ghost function OfChains(table: seq<seq<Bucket>>, i: nat): seq<string>
    decreases |table| - i
  {
    if i >= |table| then [] else OfBuckets(table[i]) + OfChains(table, i + 1)
  }

  /** From entry list e of the first bucket of b, in chain i. */
  ghost function From(table: seq<seq<Bucket>>, i: nat, b: seq<Bucket>, e: seq<string>): seq<string> {
    if b == [] then [] else Full(e, b[0].nKeyLength) + OfBuckets(b[1..]) + OfChains(table, i + 1)
  }

  ghost predicate Used(table: seq<seq<Bucket>>) {
    forall i, k :: 0 <= i < |table| && 0 <= k < |table[i]| ==> table[i][k].pData != []
  }

  /** Unused chains yield nothing. */
  lemma {:induction false} SkipUnused(table: seq<seq<Bucket>>, i: nat, j: nat)
    requires i <= j <= |table| && forall k :: i <= k < j ==> table[k] == []
    ensures OfChains(table, i) == OfChains(table, j)
    decreases j - i
  {
    if i < j { SkipUnused(table, i + 1, j); }
  }

  /** Entering the next used chain. */
  lemma EnterChain(table: seq<seq<Bucket>>, i: nat, j: nat)
    requires i <= j <= |table| && (forall k :: i <= k < j ==> table[k] == []) && (j < |table| ==> table[j] != [])
    ensures OfChains(table, i) == if j < |table| then From(table, j, table[j], table[j][0].pData) else []
  {
    SkipUnused(table, i, j);
  }

  lemma FullCons(e: seq<string>, n: nat)
    requires e != []
    ensures Full(e, n) == if |e[0]| == n then [e[0]] + Full(e[1..], n) else Full(e[1..], n)
    ensures |e| == 1 ==> Full(e[1..], n) == []
  {
  }

  lemma OfBucketsCons(b: seq<Bucket>)
    ensures OfBuckets(b) == if b == [] then [] else Full(b[0].pData, b[0].nKeyLength) + OfBuckets(b[1..])
  {
  }

  lemma Joined(x: string, a: seq<string>, b: seq<string>, c: seq<string>)
    ensures [x] + a + b + c == [x] + (a + b + c) && [] + b + c == b + c
  {
  }

  lemma PastEntry(table: seq<seq<Bucket>>, i: nat, b: seq<Bucket>, e: seq<string>)
    requires b != [] && e != []
    ensures var rest := if |e| > 1 then From(table, i, b, e[1..])
                        else if |b| > 1 then From(table, i, b[1..], b[1].pData)
                        else OfChains(table, i + 1);
            From(table, i, b, e) == if |e[0]| == b[0].nKeyLength then [e[0]] + rest else rest
  {
    hide OfChains, OfBuckets, Full;
    var n, buckets, chains := b[0].nKeyLength, OfBuckets(b[1..]), OfChains(table, i + 1);
    FullCons(e, n);
    Joined(e[0], Full(e[1..], n), buckets, chains);
    OfBucketsCons(b[1..]);
    assert |b| == 1 ==> buckets + chains == chains;
  }

  // ---------- the generator ----------

  class Generator {
    const ht: HashTable
    var textlen: nat
    /** `b`: the rest of a chain, from the current bucket on. */
    var b: seq<Bucket>
    /** `e`: the rest of a bucket's entries, from the current one on. */
    var e: seq<string>
    var i: nat

    /** What the following calls will yield. */
    ghost function Left(): seq<string>
      reads this, ht.arBuckets
    {
      if textlen > 0 || e == [] then e else From(ht.arBuckets[..], i, b, e)
    }

    /** The cursors of the traversal of the whole table. */
    ghost predicate Cursor()
      reads this
    {
      e != [] ==> b != [] && i < ht.arBuckets.Length && forall k :: 0 <= k < |b| ==> b[k].pData != []
    }

    ghost predicate Valid()
      reads this, ht, ht.arBuckets
    {
      ht.Valid() && (textlen == 0 ==> Cursor())
    }

    constructor (ht: HashTable)
      requires ht.Valid()
      ensures this.ht == ht && Valid() && e == []
    {
      this.ht := ht;
      textlen, b, e, i := 0, [], [], 0;
    }

    /** The first used chain from i on. */
    method FindChain()
      requires i <= ht.arBuckets.Length && Used(ht.arBuckets[..])
      modifies this`i, this`b, this`e
      ensures old(i) <= i <= ht.arBuckets.Length && (forall k :: old(i) <= k < i ==> ht.arBuckets[k] == [])
      ensures i < ht.arBuckets.Length ==> b == ht.arBuckets[i] != [] && e == b[0].pData != []
      ensures i == ht.arBuckets.Length ==> b == old(b) && e == old(e)
    {
      while i < ht.arBuckets.Length
        invariant old(i) <= i <= ht.arBuckets.Length && forall k :: old(i) <= k < i ==> ht.arBuckets[k] == []
        invariant b == old(b) && e == old(e)
      {
        if ht.arBuckets[i] != [] {
          b := ht.arBuckets[i];
          assert ht.arBuckets[..][i][0].pData != [];
          e := b[0].pData;
          return;
        }
        i := i + 1;
      }
    }

    /** To the next used entry. */
    method Advance()
      requires Cursor() && textlen == 0 && e != [] && Used(ht.arBuckets[..])
      modifies this`i, this`b, this`e
      ensures Cursor() && Decreased(old(i), old(b), old(e))
      ensures old(Left()) == if old(|e[0]|) == old(b[0].nKeyLength) then [old(e[0])] + Left() else Left()
    {
      hide From, OfChains;
      ghost var table := ht.arBuckets[..];
      PastEntry(table, i, b, e);
      e := e[1..];
      if e == [] {
        b := b[1..];
        if b == [] {
          i := i + 1;
          FindChain();
          EnterChain(table, old(i) + 1, i);
          assert forall k :: 0 <= k < |b| ==> b[k] == table[i][k];
        } else {
          e := b[0].pData;
        }
      }
    }

    /** The measure of the saved cursors. */
    ghost predicate Decreased(i0: nat, b0: seq<Bucket>, e0: seq<string>)
      reads this
    {
      i0 < i <= ht.arBuckets.Length || (i == i0 && (|b| < |b0| || (|b| == |b0| && |e| < |e0|)))
    }

    /** On to the next entry that is a whole word. */
    method NextWord() returns (ptr: Option<string>)
      requires Cursor() && textlen == 0 && Used(ht.arBuckets[..])
      modifies this`i, this`b, this`e
      ensures Cursor()
      ensures ptr == if old(Left()) == [] then None else Some(old(Left())[0])
      ensures Left() == if old(Left()) == [] then [] else old(Left())[1..]
    {
      hide From;
      ptr := None;
      while e != [] && ptr.None?
        invariant Cursor() && textlen == 0
        invariant old(Left()) == if ptr.Some? then [ptr.value] + Left() else Left()
        decreases if i <= ht.arBuckets.Length then ht.arBuckets.Length - i else 0, |b|, |e|
      {
        if |e[0]| == b[0].nKeyLength { ptr := Some(e[0]); }
        Advance();
      }
    }

    /** What a new run yields. */
    ghost function Start(text: string): seq<string>
      reads ht, ht.arBuckets
    {
      if text != "" then Matches(ht.words, text) else OfChains(ht.arBuckets[..], 0)
    }

    /** `new_command_generator`: state 0 begins a new run, any other state continues. */
    method Next(text: string, state: nat) returns (ptr: Option<string>)
      requires ht.Valid() && (state != 0 ==> Valid())
      requires state == 0 && text == "" && e != [] ==> exists w :: w in ht.words && w != ""
      modifies this
      ensures ptr.Some? || state != 0 ==> Valid()
      ensures var left := if state == 0 then Start(text) else old(Left());
              && ptr == (if left == [] then None else Some(left[0]))
              && (ptr.Some? || state != 0 ==> Left() == if left == [] then [] else left[1..])
    {
      hide HashTable.Valid, From, OfChains, Matches;
      if state == 0 { textlen := |text|; }
      if textlen > 0 {
        if state == 0 {
          var found, len := ht.FindAllMatches(text);
          if found.None? { return None; }
          b := [found.value];
          e := found.value.pData;
        }
        if e == [] { return None; }
        ptr := Some(e[0]);
        e := e[1..];
      } else {
        AllUsed(ht);
        if state == 0 {
          i := 0;
          FindChain();
          if i == ht.arBuckets.Length { NothingUsed(ht); }
          EnterChain(ht.arBuckets[..], 0, i);
          assert i < ht.arBuckets.Length ==> forall k :: 0 <= k < |b| ==> b[k] == ht.arBuckets[..][i][k];
        }
        ptr := NextWord();
      }
    }
  }

  lemma AllUsed(ht: HashTable)
    requires ht.Valid()
    ensures Used(ht.arBuckets[..])
  {
    hide Entries, Matches;
    var table: seq<seq<Bucket>> := ht.arBuckets[..];
    forall i, k | 0 <= i < |table| && 0 <= k < |table[i]| ensures table[i][k].pData != [] {
      assert GoodBucket(ht.hash, |table|, i, table[i][k]);
    }
  }

  /** No used chain: no word. */
  lemma NothingUsed(ht: HashTable)
    requires ht.Valid() && forall k :: 0 <= k < ht.arBuckets.Length ==> ht.arBuckets[k] == []
    ensures forall w :: w in ht.words ==> w == ""
  {
    forall w | w in ht.words ensures w == "" {
      if w != "" {
        assert ht.Data(w) == Matches(ht.words, w);
        MatchesAre(ht.words, w);
      }
    }
  }

  /** The loop of the caller: all completions of a text. */
  method Completions(g: Generator, text: string) returns (words: seq<string>)
    requires g.ht.Valid()
    requires text == "" && g.e != [] ==> exists w :: w in g.ht.words && w != ""
    modifies g
    ensures words == g.Start(text)
  {
    hide HashTable.Valid, From, OfChains, Matches;
    var ptr := g.Next(text, 0);
    words := [];
    ghost var all := g.Start(text);
    while ptr.Some?
      invariant ptr.Some? ==> g.Valid() && all == words + [ptr.value] + g.Left()
      invariant ptr.None? ==> all == words
      decreases ptr.Some?, if ptr.Some? then |g.Left()| else 0
    {
      words := words + [ptr.value];
      ptr := g.Next(text, 1);
    }
  }

  // ---------- the whole table ----------

  lemma {:induction false} FullCounts(entries: seq<string>, n: nat, w: string)
    ensures multiset(Full(entries, n))[w] == if |w| == n then multiset(entries)[w] else 0
  {
    if entries != [] {
      FullCounts(entries[1..], n, w);
      assert entries == [entries[0]] + entries[1..];
    }
  }

  lemma {:induction false} MatchesCount(words: seq<string>, p: string, w: string)
    ensures multiset(Matches(words, p))[w] == if p <= w then multiset(words)[w] else 0
  {
    if words != [] {
      MatchesCount(words[1..], p, w);
      assert words == [words[0]] + words[1..];
    }
  }

  /** A bucket yields its key as often as the key was added, and nothing else. */
  lemma BucketYields(words: seq<string>, b: Bucket, w: string)
    requires b.nKeyLength <= |b.arKey| && b.pData == Matches(words, b.Key())
    ensures multiset(Full(b.pData, b.nKeyLength))[w] == if w == b.Key() then multiset(words)[w] else 0
  {
    FullCounts(b.pData, b.nKeyLength, w);
    MatchesCount(words, b.Key(), w);
    assert b.Key() <= w && |w| == b.nKeyLength ==> w == b.Key();
  }

  ghost predicate Holds(chain: seq<Bucket>, w: string) { exists k :: 0 <= k < |chain| && chain[k].Key() == w }

  lemma {:induction false} ChainYields(words: seq<string>, chain: seq<Bucket>, w: string)
    requires forall k :: 0 <= k < |chain| ==> chain[k].nKeyLength <= |chain[k].arKey| && chain[k].pData == Matches(words, chain[k].Key())
    requires forall j, k :: 0 <= j < k < |chain| ==> chain[j].Key() != chain[k].Key()
    ensures multiset(OfBuckets(chain))[w] == if Holds(chain, w) then multiset(words)[w] else 0
    decreases |chain|
  {
    if chain != [] {
      var rest := chain[1..];
      assert forall k :: 0 <= k < |rest| ==> rest[k] == chain[k + 1];
      BucketYields(words, chain[0], w);
      ChainYields(words, rest, w);
      assert Holds(chain, w) <==> chain[0].Key() == w || Holds(rest, w);
    }
  }

  /** A chain yields the words that hash to it, each as often as it was added. */
  lemma TableChainYields(ht: HashTable, i: nat, w: string)
    requires ht.Valid() && i < ht.arBuckets.Length
    ensures multiset(OfBuckets(ht.arBuckets[i]))[w] ==
            if w != "" && ht.hash(w) % ht.arBuckets.Length == i then multiset(ht.words)[w] else 0
  {
    hide Matches;
    var chain, n := ht.arBuckets[i], ht.arBuckets.Length;
    assert GoodChain(ht.hash, n, i, chain);
    forall k | 0 <= k < |chain| ensures chain[k].nKeyLength <= |chain[k].arKey| && chain[k].pData == Matches(ht.words, chain[k].Key()) {
      assert GoodBucket(ht.hash, n, i, chain[k]);
      EntriesAt(chain, chain[k].Key(), k);
      assert ht.Data(chain[k].Key()) == Matches(ht.words, chain[k].Key());
    }
    ChainYields(ht.words, chain, w);
    if !Holds(chain, w) && ht.hash(w) % n == i && w != "" {
      EntriesAt(chain, w, |chain|);
      assert ht.Data(w) == Matches(ht.words, w);
      MatchesCount(ht.words, w, w);
    }
  }

  lemma {:induction false} ChainsYield(ht: HashTable, i: nat, w: string)
    requires ht.Valid() && i <= ht.arBuckets.Length
    ensures multiset(OfChains(ht.arBuckets[..], i))[w] ==
            if w != "" && ht.hash(w) % ht.arBuckets.Length >= i then multiset(ht.words)[w] else 0
    decreases ht.arBuckets.Length - i
  {
    hide GoodChain, Entries, Matches, OfBuckets;
    if i < ht.arBuckets.Length {
      TableChainYields(ht, i, w);
      ChainsYield(ht, i + 1, w);
      assert ht.arBuckets[..][i] == ht.arBuckets[i];
    }
  }

  /** The traversal of the whole table yields every added word exactly as often as it was added. */
  lemma TraversalYieldsEveryWord(ht: HashTable, w: string)
    requires ht.Valid()
    ensures multiset(OfChains(ht.arBuckets[..], 0))[w] == if w != "" then multiset(ht.words)[w] else 0
  {
    hide OfBuckets, OfChains, Entries, Matches;
    ChainsYield(ht, 0, w);
  }
}
