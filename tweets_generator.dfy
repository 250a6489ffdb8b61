/**
 * Building a Markov chain from a text file, and the tweet loop
 * (Assignment_01/tweets_generator.c).
 *
 * The file is its text; `fgets` into the 1000-byte `line` buffer cuts it
 * into chunks, `strtok` cuts each chunk into words, and every processed word
 * is added to the database and recorded as a successor of the word before
 * it, across chunk boundaries too. Allocation failure is two parameters:
 * `setupOk` is false when the `malloc` of the chain or of its database
 * fails, and `failAt` names the word (counting from 0) while processing
 * which every allocation fails.
 */
module TweetsGenerator {

  import opened MarkovChain
  import CString

  /** The `line` buffer size, MAX_LINE_LENGTH. */
  const LineBuffer: nat := 1000

  // ---------------------------------------------------------------------
  // Reading: fgets and strtok

  /** The DELIMITERS of `strtok`. */
  predicate IsDelim(c: char) { c == ' ' || c == '\n' || c == '\t' || c == '\r' }

  /** A word as `strtok` returns it: non-empty and free of delimiters. */
  predicate IsWord(w: string) { w != [] && forall i :: 0 <= i < |w| ==> !IsDelim(w[i]) }

  /** The number of characters one `fgets(line, 1000, fp)` takes: through a newline, at most 999. */
  function ChunkLength(text: string): (n: nat)
    requires text != []
    ensures 0 < n <= |text| && n < LineBuffer
    ensures forall i :: 0 <= i < n - 1 ==> text[i] != '\n'
    ensures n == |text| || text[n - 1] == '\n' || n == LineBuffer - 1
  {
    var upTo := match CString.IndexOf(text, '\n')
      case Some(k) => k + 1
      case None => |text|;
    if upTo < LineBuffer then upTo else LineBuffer - 1
  }

  /** The successive results of `fgets` on the file, until it returns NULL at the end. */
  function Chunks(text: string): (cs: seq<string>)
    ensures forall k :: 0 <= k < |cs| ==> 0 < |cs[k]| < LineBuffer
    decreases |text|
  {
    if text == [] then [] else
      var n := ChunkLength(text);
      [text[..n]] + Chunks(text[n..])
  }

  /** The chunks put back together. */
  function Concat(cs: seq<string>): string {
    if cs == [] then [] else cs[0] + Concat(cs[1..])
  }

  /** `fgets` loses nothing: the chunks put back together are the file. */
  lemma {:induction false} ChunksCoverText(text: string)
    ensures Concat(Chunks(text)) == text
    decreases |text|
  {
    if text != [] {
      var n := ChunkLength(text);
      ChunksCoverText(text[n..]);
      assert Chunks(text)[1..] == Chunks(text[n..]);
      assert text == text[..n] + text[n..];
    }
  }

  /** The length of the run of non-delimiters `s` starts with. */
  function RunLength(s: string): (n: nat)
    ensures n <= |s| && IsWordPrefix(s, n)
    ensures n < |s| ==> IsDelim(s[n])
  {
    if s == [] || IsDelim(s[0]) then 0 else 1 + RunLength(s[1..])
  }

  predicate IsWordPrefix(s: string, n: nat)
    requires n <= |s|
  {
    forall i :: 0 <= i < n ==> !IsDelim(s[i])
  }

  /** The words `strtok(line, DELIMITERS)` and its successors return: the maximal runs of non-delimiters. */
  function Tokens(s: string): (ts: seq<string>)
    ensures forall k :: 0 <= k < |ts| ==> IsWord(ts[k])
    decreases |s|
  {
    if s == [] then []
    else if IsDelim(s[0]) then Tokens(s[1..])
    else
      var n := RunLength(s);
      assert s[..n][0] == s[0];
      [s[..n]] + Tokens(s[n..])
  }

  /** Concatenates `Chunks` pieces: the words chunk after chunk (`strtok` stops at the NUL `fgets` writes). */
  function AllTokens(cs: seq<string>): (ts: seq<string>)
    ensures forall k :: 0 <= k < |ts| ==> IsWord(ts[k])
  {
    if cs == [] then [] else Tokens(CString.CStr(cs[0])) + AllTokens(cs[1..])
  }

  lemma {:induction false} AllTokensAppend(a: seq<string>, b: seq<string>)
    ensures AllTokens(a + b) == AllTokens(a) + AllTokens(b)
    decreases |a|
  {
    if a == [] {
      assert a + b == b;
    } else {
      assert (a + b)[1..] == a[1..] + b;
      AllTokensAppend(a[1..], b);
    }
  }

  /** The words of the first i + 1 chunks: those of the first i, then those of chunk i. */
  lemma AllTokensStep(cs: seq<string>, i: nat)
    requires i < |cs|
    ensures AllTokens(cs[..i + 1]) == AllTokens(cs[..i]) + Tokens(CString.CStr(cs[i]))
  {
    var front, one := cs[..i], [cs[i]];
    assert cs[..i + 1] == front + one;
    AllTokensAppend(front, one);
    assert one[1..] == [];
  }

  lemma AllTokensPrefix(cs: seq<string>, i: nat)
    requires i <= |cs|
    ensures AllTokens(cs[..i]) <= AllTokens(cs)
  {
    var back := cs[i..];
    assert cs == cs[..i] + back;
    AllTokensAppend(cs[..i], back);
  }

  lemma {:induction false} RunLengthOfWord(w: string, rest: string)
    requires IsWord(w) && (rest == [] || IsDelim(rest[0]))
    ensures RunLength(w + rest) == |w|
    decreases |w|
  {
    assert (w + rest)[0] == w[0];
    if |w| > 1 {
      assert (w + rest)[1..] == w[1..] + rest;
      RunLengthOfWord(w[1..], rest);
    } else {
      assert (w + rest)[1..] == rest;
    }
  }

  lemma {:induction false} RunLengthOfPrefix(a: string, b: string)
    requires RunLength(a) < |a|
    ensures RunLength(a + b) == RunLength(a)
    decreases |a|
  {
    assert (a + b)[0] == a[0];
    if !IsDelim(a[0]) {
      assert (a + b)[1..] == a[1..] + b;
      RunLengthOfPrefix(a[1..], b);
    }
  }

  /** `strtok` cuts at a delimiter: text that ends with one splits into its words and the words of what follows. */
  lemma {:induction false} TokensSplit(a: string, b: string)
    requires a == [] || IsDelim(a[|a| - 1])
    ensures Tokens(a + b) == Tokens(a) + Tokens(b)
    decreases |a|
  {
    if a == [] {
      assert a + b == b;
    } else if IsDelim(a[0]) {
      assert (a + b)[0] == a[0];
      assert (a + b)[1..] == a[1..] + b;
      TokensSplit(a[1..], b);
    } else {
      var n := RunLength(a);
      assert n < |a|;
      RunLengthOfPrefix(a, b);
      assert (a + b)[0] == a[0];
      assert (a + b)[..n] == a[..n];
      assert (a + b)[n..] == a[n..] + b;
      TokensSplit(a[n..], b);
    }
  }

  /** Words written out with single blanks between them. */
  function Join(ws: seq<string>): string {
    if ws == [] then [] else if |ws| == 1 then ws[0] else ws[0] + " " + Join(ws[1..])
  }

  /** `strtok` on a word, a blank and more text: the word, then the words of the rest. */
  lemma TokensOfWordThen(w: string, rest: string)
    requires IsWord(w)
    ensures Tokens(w + " " + rest) == [w] + Tokens(rest)
  {
    var s := w + (" " + rest);
    assert w + " " + rest == s;
    RunLengthOfWord(w, " " + rest);
    assert s[0] == w[0];
    assert s[..|w|] == w;
    assert s[|w|..] == " " + rest;
    assert (" " + rest)[1..] == rest;
  }

  /** `strtok` gives back the words a text was written from. */
  lemma {:induction false} TokensOfJoin(ws: seq<string>)
    requires forall k :: 0 <= k < |ws| ==> IsWord(ws[k])
    ensures Tokens(Join(ws)) == ws
    decreases |ws|
  {
    if |ws| == 1 {
      var w := ws[0];
      RunLengthOfWord(w, []);
      assert w + [] == w;
      assert w[..|w|] == w && w[|w|..] == [];
    } else if |ws| > 1 {
      TokensOfWordThen(ws[0], Join(ws[1..]));
      TokensOfJoin(ws[1..]);
      assert ws == [ws[0]] + ws[1..];
    }
  }

  /** No line of the text holds more than 998 characters before its newline. */
  predicate ShortLines(text: string) {
    forall i, j :: 0 <= i < j <= |text| && j - i >= LineBuffer - 1 ==> '\n' in text[i..j]
  }

  /** Under `ShortLines`, every chunk is a whole line, newline included, or the rest of the file. */
  lemma ChunkIsLine(text: string)
    requires text != [] && ShortLines(text)
    ensures ChunkLength(text) == |text| || text[ChunkLength(text) - 1] == '\n'
  {
    var window := LineBuffer - 1;
    if |text| >= window {
      assert '\n' in text[0..window];
    }
  }

  lemma ShortLinesSuffix(text: string, n: nat)
    requires ShortLines(text) && n <= |text|
    ensures ShortLines(text[n..])
  {
    var t := text[n..];
    forall i, j | 0 <= i < j <= |t| && j - i >= LineBuffer - 1
      ensures '\n' in t[i..j]
    {
      assert t[i..j] == text[n + i..n + j];
    }
  }

  /** The words of the chunks: those of the first chunk, then those of the rest. */
  lemma AllTokensOfChunks(text: string)
    requires text != [] && CString.NoNul(text)
    ensures var n := ChunkLength(text);
      AllTokens(Chunks(text)) == Tokens(text[..n]) + AllTokens(Chunks(text[n..]))
  {
    var n := ChunkLength(text);
    var cs := Chunks(text);
    assert cs[0] == text[..n] && cs[1..] == Chunks(text[n..]);
    assert CString.NoNul(text[..n]);
    CString.CStrOfNoNul(text[..n]);
  }

  /** Under `ShortLines`, the words of the text: those of its first chunk, then those of the rest. */
  lemma TokensOfChunk(text: string)
    requires text != [] && ShortLines(text)
    ensures var n := ChunkLength(text);
      Tokens(text) == Tokens(text[..n]) + Tokens(text[n..])
  {
    var n := ChunkLength(text);
    var head, tail := text[..n], text[n..];
    ChunkIsLine(text);
    assert text == head + tail;
    if n < |text| {
      TokensSplit(head, tail);
    } else {
      assert head == text && tail == [];
      assert Tokens(head) + Tokens(tail) == Tokens(head) + [];
    }
  }

  /**
   * When no line is longer than 998 characters and the file holds no NUL,
   * reading it chunk by chunk meets exactly the words of the whole text.
   */
  lemma {:induction false} ChunkTokens(text: string)
    requires CString.NoNul(text) && ShortLines(text)
    ensures AllTokens(Chunks(text)) == Tokens(text)
    decreases |text|
  {
    if text != [] {
      var n := ChunkLength(text);
      ShortLinesSuffix(text, n);
      assert CString.NoNul(text[n..]);
      ChunkTokens(text[n..]);
      AllTokensOfChunks(text);
      TokensOfChunk(text);
    }
  }

  // ---------------------------------------------------------------------
  // The words processed and what they build

  /** The words processed out of `ts` with `words_to_read == limit`: all of them for -1, else at most `limit`. */
  function Limited(ts: seq<string>, limit: int): (r: seq<string>)
    ensures r <= ts
    ensures |r| == if limit == -1 then |ts| else if limit <= 0 then 0 else if limit < |ts| then limit else |ts|
  {
    if limit == -1 then ts else if limit <= 0 then [] else if limit < |ts| then ts[..limit] else ts
  }

  /** Below the limit, nothing has been cut off. */
  lemma LimitedUnder(ts: seq<string>, limit: int)
    requires limit == -1 || |Limited(ts, limit)| < limit
    ensures Limited(ts, limit) == ts
  {
  }

  /** A prefix of the words, within the limit, is a prefix of what the limit leaves. */
  lemma PrefixOfLimited(us: seq<string>, ts: seq<string>, limit: int)
    requires us <= ts
    requires limit == -1 || |us| <= limit
    ensures us <= Limited(ts, limit)
  {
  }

  /** Once the limit is reached, further words change nothing. */
  lemma LimitedReached(us: seq<string>, ts: seq<string>, limit: int)
    requires us <= ts && limit != -1 && |Limited(us, limit)| >= limit
    ensures Limited(us, limit) == Limited(ts, limit)
  {
  }

  /** A prefix `us` of `line` that stops at the limit, or is all of `line` within it, is what the limit leaves of `line`. */
  lemma LimitedOfPrefix(us: seq<string>, line: seq<string>, limit: int)
    requires us <= line
    requires limit == -1 || |us| <= limit
    requires us == line || |us| == limit
    ensures Limited(line, limit) == us
  {
  }

  /** The words `build_markov_chain(fp, wordsToRead)` processes from a file holding `text`. */
  function Processed(text: string, wordsToRead: int): (ts: seq<string>)
    ensures forall k :: 0 <= k < |ts| ==> IsWord(ts[k])
    ensures ts <= AllTokens(Chunks(text))
  {
    Limited(AllTokens(Chunks(text)), wordsToRead)
  }

  /** The database being built and the record of the previous word (`prev_node`). */
  datatype Builder = Builder(db: seq<MarkovNode>, prev: Option<nat>)

  predicate BuilderOk(b: Builder) {
    WellFormed(b.db) && (b.prev.Some? ==> b.prev.value < |b.db|)
  }

  /**
   * One pass of the inner loop for `word`: `add_to_database`, then, after
   * a previous word, `add_node_to_frequencies_list`. None when either
   * needs an allocation and `allocOk` is false.
   */
  function Step(b: Builder, word: string, allocOk: bool): (r: Option<Builder>)
    requires BuilderOk(b) && word != []
    ensures r.Some? ==> BuilderOk(r.value) && r.value.prev.Some?
  {
    if Lookup(b.db, word).None? && !allocOk then None
    else
      AddedProperties(b.db, word);
      var db := Added(b.db, word);
      var cur := Lookup(db, word).value;
      match b.prev
      case None => Some(Builder(db, Some(cur)))
      case Some(p) =>
        if FindNext(db[p].freqs, cur).None? && !allocOk then None
        else
          RecordKeepsWellFormed(db, p, cur);
          Some(Builder(db[p := Record(db[p], cur)], Some(cur)))
  }

  /** The inner loop over the words `ts`, from the empty chain; the allocations for word number `failAt` fail. */
  function Feed(ts: seq<string>, failAt: Option<nat>): (r: Option<Builder>)
    requires forall k :: 0 <= k < |ts| ==> ts[k] != []
    ensures r.Some? ==> BuilderOk(r.value)
  {
    if ts == [] then Some(Builder([], None))
    else match Feed(ts[..|ts| - 1], failAt)
      case None => None
      case Some(b) => Step(b, ts[|ts| - 1], failAt != Some(|ts| - 1))
  }

  /** How often word `b` directly follows word `a` in `ts`. */
  function PairCount(ts: seq<string>, a: string, b: string): nat {
    if |ts| < 2 then 0
    else PairCount(ts[..|ts| - 1], a, b) + (if ts[|ts| - 2] == a && ts[|ts| - 1] == b then 1 else 0)
  }

  /** How often word `a` is followed by some word in `ts`. */
  function FollowedCount(ts: seq<string>, a: string): nat {
    if |ts| < 2 then 0
    else FollowedCount(ts[..|ts| - 1], a) + (if ts[|ts| - 2] == a then 1 else 0)
  }

  lemma CountsSnoc(ts: seq<string>, w: string)
    ensures forall a, b :: PairCount(ts + [w], a, b) == PairCount(ts, a, b) + (if |ts| > 0 && ts[|ts| - 1] == a && w == b then 1 else 0)
    ensures forall a :: FollowedCount(ts + [w], a) == FollowedCount(ts, a) + (if |ts| > 0 && ts[|ts| - 1] == a then 1 else 0)
  {
    assert (ts + [w])[..|ts|] == ts;
  }

  /** A word that does not occur is in no pair. */
  lemma {:induction false} CountsOfAbsent(ts: seq<string>, a: string)
    requires a !in ts
    ensures forall b :: PairCount(ts, a, b) == 0 && PairCount(ts, b, a) == 0
    ensures FollowedCount(ts, a) == 0
    decreases |ts|
  {
    if |ts| >= 2 {
      var front := ts[..|ts| - 1];
      assert a !in front;
      CountsOfAbsent(front, a);
    }
  }

  /** A successor without an entry has count zero. */
  lemma {:induction false} CountOfAbsent(fs: seq<Freq>, j: nat)
    requires forall k :: 0 <= k < |fs| ==> fs[k].next != j
    ensures CountOf(fs, j) == 0
    decreases |fs|
  {
    if fs != [] {
      CountOfAbsent(fs[..|fs| - 1], j);
    }
  }

  /** Some record holds `w`. */
  predicate Present(db: seq<MarkovNode>, w: string) {
    db != [] && (db[0].word == w || Present(db[1..], w))
  }

  /** A word is present exactly when `get_node_from_database` finds it. */
  lemma {:induction false} PresentIsFound(db: seq<MarkovNode>, w: string)
    ensures Present(db, w) <==> Lookup(db, w).Some?
    decreases |db|
  {
    if db != [] && db[0].word != w {
      PresentIsFound(db[1..], w);
    }
  }

  /** Every word of `ts` has a record. */
  predicate AllFound(ts: seq<string>, db: seq<MarkovNode>) {
    forall k :: 0 <= k < |ts| ==> Present(db, ts[k])
  }

  /** Every record holds a word of `ts`. */
  predicate OnlyWords(ts: seq<string>, db: seq<MarkovNode>) {
    forall i :: 0 <= i < |db| ==> db[i].word in ts
  }

  /** The frequency lists count the consecutive pairs of `ts` exactly, and each total counts the pairs the word starts. */
  predicate Counted(ts: seq<string>, db: seq<MarkovNode>) {
    && (forall i, j :: 0 <= i < |db| && 0 <= j < |db| ==> CountOf(db[i].freqs, j) == PairCount(ts, db[i].word, db[j].word))
    && (forall i :: 0 <= i < |db| ==> db[i].total == FollowedCount(ts, db[i].word))
  }

  /**
   * What the inner loop has built after the words `ts`: a record for each
   * distinct word and for nothing else, counts of the consecutive pairs,
   * and the last word's record as the previous one.
   */
  predicate Built(ts: seq<string>, b: Builder) {
    && WellFormed(b.db)
    && AllFound(ts, b.db)
    && OnlyWords(ts, b.db)
    && Counted(ts, b.db)
    && b.prev == (if ts == [] then None else Lookup(b.db, ts[|ts| - 1]))
    && (ts == [] ==> b.db == [])
  }

  /** A word without a record has not been processed yet. */
  lemma NotFoundIsNew(ts: seq<string>, db: seq<MarkovNode>, w: string)
    requires AllFound(ts, db) && Lookup(db, w).None?
    ensures w !in ts
  {
    forall k | 0 <= k < |ts| ensures ts[k] != w {
      PresentIsFound(db, ts[k]);
    }
  }

  lemma AddFound(ts: seq<string>, db: seq<MarkovNode>, w: string)
    requires WellFormed(db) && AllFound(ts, db) && w != []
    ensures AllFound(ts + [w], Added(db, w))
  {
    AddedProperties(db, w);
    var ts2 := ts + [w];
    forall k | 0 <= k < |ts2| ensures Present(Added(db, w), ts2[k]) {
      PresentIsFound(Added(db, w), ts2[k]);
      if k < |ts| {
        PresentIsFound(db, ts[k]);
        if Lookup(db, w).None? { LookupExtend(db, [NewNode(w)], ts[k]); }
      }
    }
  }

  lemma AddOnlyWords(ts: seq<string>, db: seq<MarkovNode>, w: string)
    requires WellFormed(db) && OnlyWords(ts, db) && w != []
    ensures OnlyWords(ts + [w], Added(db, w))
  {
    AddedProperties(db, w);
    var db2, ts2 := Added(db, w), ts + [w];
    forall i | 0 <= i < |db2| ensures db2[i].word in ts2 {
      if i < |db| {
        assert db2[i].word in ts;
      } else {
        assert db2[i].word == ts2[|ts|];
      }
    }
  }

  /** A new record counts nothing yet, and nothing was counted for it. */
  lemma AddCounted(ts: seq<string>, db: seq<MarkovNode>, w: string)
    requires WellFormed(db) && AllFound(ts, db) && Counted(ts, db) && w != []
    ensures Counted(ts, Added(db, w))
  {
    AddedProperties(db, w);
    if Lookup(db, w).None? {
      var db2 := db + [NewNode(w)];
      NotFoundIsNew(ts, db, w);
      CountsOfAbsent(ts, w);
      forall i, j | 0 <= i < |db2| && 0 <= j < |db2|
        ensures CountOf(db2[i].freqs, j) == PairCount(ts, db2[i].word, db2[j].word)
      {
        if i == |db| {
          assert db2[i].freqs == [];
        } else if j == |db| {
          assert db2[i] == db[i] && NodeOk(db[i], |db|);
          CountOfAbsent(db[i].freqs, j);
        } else {
          assert db2[i] == db[i] && db2[j] == db[j];
        }
      }
      assert db2[|db|].total == 0;
    }
  }

  /** Record `p` is the one whose word is the last word of `ts`. */
  lemma LookupIdentifies(db: seq<MarkovNode>, word: string, p: nat, i: nat)
    requires WellFormed(db) && Lookup(db, word) == Some(p) && i < |db|
    ensures (db[i].word == word) == (i == p)
  {
  }

  /** One count after recording `cur` after `p`: the pair ending at w is added. */
  lemma RecordCountCell(ts: seq<string>, db: seq<MarkovNode>, w: string, p: nat, cur: nat, i: nat, j: nat)
    requires WellFormed(db) && |ts| > 0 && i < |db| && j < |db|
    requires Lookup(db, ts[|ts| - 1]) == Some(p) && Lookup(db, w) == Some(cur)
    requires CountOf(db[i].freqs, j) == PairCount(ts, db[i].word, db[j].word)
    ensures var db2 := db[p := Record(db[p], cur)];
      CountOf(db2[i].freqs, j) == PairCount(ts + [w], db2[i].word, db2[j].word)
  {
    RecordProperties(db[p], |db|, cur);
    CountsSnoc(ts, w);
    LookupIdentifies(db, ts[|ts| - 1], p, i);
    LookupIdentifies(db, w, cur, j);
  }

  /** One total after recording `cur` after `p`: the last word of `ts` is followed once more. */
  lemma RecordTotalCell(ts: seq<string>, db: seq<MarkovNode>, w: string, p: nat, cur: nat, i: nat)
    requires WellFormed(db) && |ts| > 0 && i < |db| && cur < |db|
    requires Lookup(db, ts[|ts| - 1]) == Some(p)
    requires db[i].total == FollowedCount(ts, db[i].word)
    ensures var db2 := db[p := Record(db[p], cur)];
      db2[i].total == FollowedCount(ts + [w], db2[i].word)
  {
    RecordProperties(db[p], |db|, cur);
    CountsSnoc(ts, w);
    LookupIdentifies(db, ts[|ts| - 1], p, i);
  }

  /** Recording `cur` after `p`, the record of the last word of `ts`, adds exactly the pair ending at w. */
  lemma RecordCounts(ts: seq<string>, db: seq<MarkovNode>, w: string, p: nat, cur: nat)
    requires WellFormed(db) && Counted(ts, db) && |ts| > 0
    requires Lookup(db, ts[|ts| - 1]) == Some(p) && Lookup(db, w) == Some(cur)
    ensures Counted(ts + [w], db[p := Record(db[p], cur)])
  {
    var db2 := db[p := Record(db[p], cur)];
    forall i, j | 0 <= i < |db2| && 0 <= j < |db2|
      ensures CountOf(db2[i].freqs, j) == PairCount(ts + [w], db2[i].word, db2[j].word)
    {
      RecordCountCell(ts, db, w, p, cur, i, j);
    }
    forall i | 0 <= i < |db2| ensures db2[i].total == FollowedCount(ts + [w], db2[i].word) {
      RecordTotalCell(ts, db, w, p, cur, i);
    }
  }

  /** Databases with the same words in the same places find and hold the same words. */
  lemma SameWordsKeep(ts: seq<string>, db: seq<MarkovNode>, db2: seq<MarkovNode>)
    requires |db| == |db2| && forall i :: 0 <= i < |db| ==> db[i].word == db2[i].word
    requires AllFound(ts, db) && OnlyWords(ts, db)
    ensures AllFound(ts, db2) && OnlyWords(ts, db2)
  {
    forall k | 0 <= k < |ts| ensures Present(db2, ts[k]) {
      PresentIsFound(db, ts[k]);
      PresentIsFound(db2, ts[k]);
      LookupSameWords(db, db2, ts[k]);
    }
    forall i | 0 <= i < |db2| ensures db2[i].word in ts {
      assert db[i].word in ts;
    }
  }

  /** After a previous word, the record of the new word follows it; the words stay as they were. */
  lemma RecordBuilt(ts: seq<string>, db: seq<MarkovNode>, w: string, p: nat, cur: nat)
    requires WellFormed(db) && AllFound(ts + [w], db) && OnlyWords(ts + [w], db) && Counted(ts, db) && |ts| > 0
    requires Lookup(db, ts[|ts| - 1]) == Some(p) && Lookup(db, w) == Some(cur)
    ensures Built(ts + [w], Builder(db[p := Record(db[p], cur)], Some(cur)))
  {
    RecordCounts(ts, db, w, p, cur);
    RecordKeepsWellFormed(db, p, cur);
    var db2 := db[p := Record(db[p], cur)];
    var ts2 := ts + [w];
    assert forall i :: 0 <= i < |db| ==> db[i].word == db2[i].word;
    SameWordsKeep(ts2, db, db2);
    LookupSameWords(db, db2, w);
    assert ts2[|ts2| - 1] == w;
  }

  /** The builder after a pass that succeeds. */
  lemma StepValue(b: Builder, w: string, allocOk: bool)
    requires BuilderOk(b) && w != [] && Step(b, w, allocOk).Some?
    ensures var db := Added(b.db, w);
      && Lookup(db, w).Some?
      && Step(b, w, allocOk).value == match b.prev
        case None => Builder(db, Lookup(db, w))
        case Some(p) => Builder(db[p := Record(db[p], Lookup(db, w).value)], Lookup(db, w))
  {
    AddedProperties(b.db, w);
  }

  /** The one record of the first word counts no pair, as the one word has none. */
  lemma FirstCounted(w: string, ts2: seq<string>, db: seq<MarkovNode>)
    requires w != [] && db == [NewNode(w)] && ts2 == [w]
    ensures Counted(ts2, db)
  {
    assert PairCount(ts2, w, w) == 0;
    assert FollowedCount(ts2, w) == 0;
  }

  /** The first word builds a database of its one record. */
  lemma FirstBuilt(w: string, ts2: seq<string>)
    requires w != [] && ts2 == [w]
    ensures Built(ts2, Builder(Added([], w), Lookup(Added([], w), w)))
  {
    var db := [NewNode(w)];
    assert Added([], w) == db;
    assert Lookup(db, w) == Some(0);
    assert NodeOk(db[0], 1);
    assert WellFormed(db);
    assert Present(db, w);
    assert AllFound(ts2, db) && OnlyWords(ts2, db);
    FirstCounted(w, ts2, db);
    assert ts2[|ts2| - 1] == w;
  }

  /** Each pass of the inner loop keeps `Built`. */
  lemma StepBuilt(ts: seq<string>, b: Builder, w: string, allocOk: bool, ts2: seq<string>)
    requires Built(ts, b) && w != [] && BuilderOk(b) && ts2 == ts + [w]
    requires Step(b, w, allocOk).Some?
    ensures Built(ts2, Step(b, w, allocOk).value)
  {
    StepValue(b, w, allocOk);
    if ts == [] {
      assert ts2 == [w];
      FirstBuilt(w, ts2);
    } else {
      AddFound(ts, b.db, w);
      AddOnlyWords(ts, b.db, w);
      AddCounted(ts, b.db, w);
      AddedProperties(b.db, w);
      var db := Added(b.db, w);
      PresentIsFound(b.db, ts[|ts| - 1]);
      var p := b.prev.value;
      LookupExtend(b.db, db[|b.db|..], ts[|ts| - 1]);
      assert b.db + db[|b.db|..] == db;
      RecordBuilt(ts, db, w, p, Lookup(db, w).value);
    }
  }

  /** One more word keeps `Built`: the step from `Feed` of all but the last word. */
  lemma FeedStepBuilt(front: seq<string>, w: string, ts: seq<string>, failAt: Option<nat>, b: Builder, b2: Builder)
    requires NonEmpty(front) && w != [] && ts == front + [w]
    requires Feed(front, failAt) == Some(b) && Built(front, b)
    requires Feed(ts, failAt) == Some(b2)
    ensures Built(ts, b2)
  {
    FeedWord(front, w, failAt, b);
    StepBuilt(front, b, w, failAt != Some(|front|), ts);
  }

  /**
   * The chain built from the words `ts` without a failure holds one record
   * per distinct word and counts every consecutive pair: the count of
   * successor j in the list of record i is the number of times word j
   * directly follows word i in `ts`, and the total is how often word i is
   * followed at all.
   */
  lemma {:induction false} FeedBuilt(ts: seq<string>, failAt: Option<nat>, b: Builder)
    requires NonEmpty(ts)
    requires Feed(ts, failAt) == Some(b)
    ensures Built(ts, b)
    decreases |ts|
  {
    if ts != [] {
      var front, w := ts[..|ts| - 1], ts[|ts| - 1];
      Unsnoc(ts);
      assert NonEmpty(front);
      FeedSnoc(front, w, failAt);
      var b1 := Feed(front, failAt).value;
      FeedBuilt(front, failAt, b1);
      FeedStepBuilt(front, w, ts, failAt, b1, b);
    }
  }


  /** A non-empty sequence of words is its front followed by its last word. */
  lemma Unsnoc(ts: seq<string>)
    requires ts != []
    ensures ts[..|ts| - 1] + [ts[|ts| - 1]] == ts
  {
  }

  /** `Feed` one word further. */
  lemma FeedSnoc(ts: seq<string>, w: string, failAt: Option<nat>)
    requires (forall k :: 0 <= k < |ts| ==> ts[k] != []) && w != []
    ensures Feed(ts + [w], failAt) == match Feed(ts, failAt)
      case None => None
      case Some(b) => Step(b, w, failAt != Some(|ts|))
  {
    assert (ts + [w])[..|ts|] == ts;
  }

  /** Once an allocation has failed, the build stays failed. */
  predicate NonEmpty(ts: seq<string>) { forall k :: 0 <= k < |ts| ==> ts[k] != [] }

  /** `FeedSnoc` after a pass that succeeded with builder `b`. */
  lemma FeedWord(ts: seq<string>, w: string, failAt: Option<nat>, b: Builder)
    requires NonEmpty(ts) && w != []
    requires Feed(ts, failAt) == Some(b)
    ensures Feed(ts + [w], failAt) == Step(b, w, failAt != Some(|ts|))
  {
    FeedSnoc(ts, w, failAt);
  }

  /** One more word of the line: the words fed so far grow by it and stay non-empty. */
  lemma WordsAppend(done: seq<string>, toks: seq<string>, i: nat, fed: seq<string>)
    requires i < |toks| && fed == done + toks[..i]
    requires NonEmpty(fed) && toks[i] != []
    ensures fed + [toks[i]] == done + toks[..i + 1]
    ensures NonEmpty(fed + [toks[i]])
  {
    assert toks[..i + 1] == toks[..i] + [toks[i]];
  }

  lemma {:induction false} FeedStaysFailed(us: seq<string>, ts: seq<string>, failAt: Option<nat>)
    requires forall k :: 0 <= k < |ts| ==> ts[k] != []
    requires us <= ts && Feed(us, failAt).None?
    ensures Feed(ts, failAt).None?
    decreases |ts|
  {
    if |us| < |ts| {
      var front := ts[..|ts| - 1];
      FeedStaysFailed(us, front, failAt);
    } else {
      assert us == ts;
    }
  }

  /**
   * Processing word k of `ts` needs an allocation: the word has no record
   * yet, or it closes a pair not seen before (a new frequency-list entry).
   */
  predicate NeedsAlloc(ts: seq<string>, k: nat)
    requires k < |ts|
  {
    ts[k] !in ts[..k] || (k > 0 && PairCount(ts[..k], ts[k - 1], ts[k]) == 0)
  }

  /** A pass fails exactly when the allocation it needs is refused. */
  lemma StepFails(ts: seq<string>, b: Builder, w: string)
    requires Built(ts, b) && BuilderOk(b) && w != []
    ensures Step(b, w, true).Some?
    ensures Step(b, w, false).None? <==> w !in ts || (|ts| > 0 && PairCount(ts, ts[|ts| - 1], w) == 0)
  {
    AddedProperties(b.db, w);
    if Lookup(b.db, w).None? {
      NotFoundIsNew(ts, b.db, w);
    } else {
      var i := Lookup(b.db, w).value;
      assert b.db[i].word in ts;
      if ts != [] {
        PresentIsFound(b.db, ts[|ts| - 1]);
        var p := b.prev.value;
        CountOfPositive(b.db[p].freqs, i);
        assert CountOf(b.db[p].freqs, i) == PairCount(ts, b.db[p].word, b.db[i].word);
      }
    }
  }

  /** Whether an earlier word needs an allocation does not depend on the words after it. */
  lemma NeedsAllocSnoc(front: seq<string>, w: string, k: nat)
    requires k < |front|
    ensures NeedsAlloc(front + [w], k) == NeedsAlloc(front, k)
  {
    assert (front + [w])[..k] == front[..k];
  }

  /** The last pass fails exactly when it is the failing one and needs an allocation. */
  lemma FeedFailsLast(front: seq<string>, w: string, failAt: Option<nat>, b: Builder)
    requires NonEmpty(front) && w != []
    requires Feed(front, failAt) == Some(b) && Built(front, b)
    ensures Feed(front + [w], failAt).None? <==> failAt == Some(|front|) && NeedsAlloc(front + [w], |front|)
  {
    FeedWord(front, w, failAt, b);
    StepFails(front, b, w);
    var ts := front + [w];
    assert ts[..|front|] == front;
    assert |front| > 0 ==> ts[|front| - 1] == front[|front| - 1];
  }

  /** `FeedFails` one word further, after a pass that already failed. */
  lemma FeedFailsFailed(front: seq<string>, w: string, f: nat)
    requires NonEmpty(front) && w != []
    requires Feed(front, Some(f)).None? && f < |front| && NeedsAlloc(front, f)
    ensures Feed(front + [w], Some(f)).None? && NeedsAlloc(front + [w], f)
  {
    FeedSnoc(front, w, Some(f));
    NeedsAllocSnoc(front, w, f);
  }

  /** `FeedFails` one word further, after passes that all succeeded. */
  lemma FeedFailsFed(front: seq<string>, w: string, failAt: Option<nat>, b: Builder)
    requires NonEmpty(front) && w != []
    requires Feed(front, failAt) == Some(b) && Built(front, b)
    requires !(failAt.Some? && failAt.value < |front| && NeedsAlloc(front, failAt.value))
    ensures Feed(front + [w], failAt).None? <==>
            failAt.Some? && failAt.value < |front| + 1 && NeedsAlloc(front + [w], failAt.value)
  {
    FeedFailsLast(front, w, failAt, b);
    if failAt.Some? && failAt.value < |front| {
      NeedsAllocSnoc(front, w, failAt.value);
    }
  }

  /**
   * `build_markov_chain` fails (frees the chain and returns NULL) exactly
   * when the failing allocations belong to a word it processes and that
   * word needs one.
   */
  lemma {:induction false} FeedFails(ts: seq<string>, failAt: Option<nat>)
    requires forall k :: 0 <= k < |ts| ==> ts[k] != []
    ensures Feed(ts, failAt).None? <==> failAt.Some? && failAt.value < |ts| && NeedsAlloc(ts, failAt.value)
    decreases |ts|
  {
    if ts != [] {
      var front, w := ts[..|ts| - 1], ts[|ts| - 1];
      Unsnoc(ts);
      assert NonEmpty(front);
      FeedFails(front, failAt);
      match Feed(front, failAt)
      case None =>
        FeedFailsFailed(front, w, failAt.value);
      case Some(b) =>
        FeedBuilt(front, failAt, b);
        FeedFailsFed(front, w, failAt, b);
    }
  }


  // ---------------------------------------------------------------------
  // build_markov_chain

  /**
   * One pass of the inner loop: `add_to_database`, then
   * `add_node_to_frequencies_list` after the previous word. None when an
   * allocation fails; the chain is discarded then.
   */
  method ProcessWord(c: Chain, word: string, prev: Option<nat>, allocOk: bool) returns (current: Option<nat>)
    requires BuilderOk(Builder(c.database, prev)) && word != []
    modifies c
    ensures var r := Step(Builder(old(c.database), prev), word, allocOk);
      && (current.None? <==> r.None?)
      && (current.Some? ==> r.value == Builder(c.database, current))
  {
    ghost var b := Builder(c.database, prev);
    AddedProperties(c.database, word);
    current := c.AddToDatabase(word, allocOk);
    if current.None? {
      return;
    }
    if prev.Some? {
      var ok := c.AddToFrequencies(prev.value, current.value, allocOk);
      if !ok {
        return None;
      }
    }
    StepValue(b, word, allocOk);
  }

  /** `ProcessWord` on the word after `fed`, which `Feed` has turned into the chain and `last`. */
  method ReadWord(c: Chain, word: string, last: Option<nat>, read: nat, failAt: Option<nat>, ghost fed: seq<string>)
    returns (current: Option<nat>)
    requires NonEmpty(fed) && word != [] && read == |fed|
    requires Feed(fed, failAt) == Some(Builder(c.database, last))
    modifies c
    ensures current.None? ==> Feed(fed + [word], failAt).None?
    ensures current.Some? ==> Feed(fed + [word], failAt) == Some(Builder(c.database, current))
  {
    FeedWord(fed, word, failAt, Builder(c.database, last));
    current := ProcessWord(c, word, last, failAt != Some(read));
  }

  /**
   * The inner `strtok` loop over one line's words `toks`, entered with the
   * words `done` already fed and `wordsRead == |done|`. It stops at the end
   * of the line, when `wordsToRead` words have been read, or when an
   * allocation fails; `fed` is `done` followed by the words it took.
   */
  method FeedLine(c: Chain, toks: seq<string>, prev: Option<nat>, wordsRead: nat, wordsToRead: int,
                  failAt: Option<nat>, ghost done: seq<string>)
    returns (ok: bool, last: Option<nat>, read: nat, ghost fed: seq<string>)
    requires NonEmpty(toks) && NonEmpty(done)
    requires wordsRead == |done| && (wordsToRead == -1 || wordsRead <= wordsToRead)
    requires Feed(done, failAt) == Some(Builder(c.database, prev))
    modifies c
    ensures |done| <= |fed| <= |done| + |toks| && fed == done + toks[..|fed| - |done|]
    ensures wordsToRead == -1 || |fed| <= wordsToRead
    ensures ok ==> Feed(fed, failAt) == Some(Builder(c.database, last)) && read == |fed|
    ensures ok ==> |fed| == |done| + |toks| || read == wordsToRead
    ensures !ok ==> Feed(fed, failAt).None?
  {
    ok, last, read, fed := true, prev, wordsRead, done;
    var ti := 0;
    while ti < |toks| && (wordsToRead == -1 || read < wordsToRead)
      invariant ti <= |toks| && read == wordsRead + ti && fed == done + toks[..ti]
      invariant wordsToRead == -1 || read <= wordsToRead
      invariant NonEmpty(fed)
      invariant Feed(fed, failAt) == Some(Builder(c.database, last))
    {
      var word := toks[ti];
      WordsAppend(done, toks, ti, fed);
      var current := ReadWord(c, word, last, read, failAt, fed);
      fed := fed + [word];
      if current.None? {
        return false, last, read, fed;
      }
      read := read + 1;
      last := current;
      ti := ti + 1;
    }
  }

  /**
   * One pass of the `fgets` loop: the words of chunk `li` fed after
   * `done`, the words of the chunks before it within the limit. On success
   * the words fed are those of the chunks up to and including `li` within
   * the limit; on failure the whole build fails.
   */
  method FeedChunk(c: Chain, chunks: seq<string>, li: nat, prev: Option<nat>, wordsRead: nat, wordsToRead: int,
                   failAt: Option<nat>, ghost done: seq<string>)
    returns (ok: bool, last: Option<nat>, read: nat, ghost fed: seq<string>)
    requires li < |chunks| && (wordsToRead == -1 || wordsRead < wordsToRead)
    requires done == Limited(AllTokens(chunks[..li]), wordsToRead) && wordsRead == |done|
    requires Feed(done, failAt) == Some(Builder(c.database, prev))
    modifies c
    ensures ok ==> fed == Limited(AllTokens(chunks[..li + 1]), wordsToRead) && read == |fed|
    ensures ok ==> Feed(fed, failAt) == Some(Builder(c.database, last))
    ensures !ok ==> Feed(Limited(AllTokens(chunks), wordsToRead), failAt).None?
  {
    ghost var all := AllTokens(chunks);
    AllTokensStep(chunks, li);
    AllTokensPrefix(chunks, li + 1);
    LimitedUnder(AllTokens(chunks[..li]), wordsToRead);
    var toks := Tokens(CString.CStr(chunks[li]));
    ghost var line := AllTokens(chunks[..li + 1]);
    ok, last, read, fed := FeedLine(c, toks, prev, wordsRead, wordsToRead, failAt, done);
    assert fed <= line;
    if !ok {
      PrefixOfLimited(fed, all, wordsToRead);
      FeedStaysFailed(fed, Limited(all, wordsToRead), failAt);
      return;
    }
    LimitedOfPrefix(fed, line, wordsToRead);
  }

  /**
   * `build_markov_chain(fp, wordsToRead)` on a file holding `text`: null
   * when the chain or its database cannot be allocated, otherwise the
   * chain `Feed` builds from the processed words, or null when an
   * allocation for a word fails. (The `strlen(word) == 0` test never fires, since
   * `strtok` returns no empty word.)
   */
  method BuildMarkovChain(text: string, wordsToRead: int, setupOk: bool, failAt: Option<nat>) returns (chain: Chain?)
    ensures var r := Feed(Processed(text, wordsToRead), failAt);
      && (chain == null <==> !setupOk || r.None?)
      && (chain != null ==> fresh(chain) && chain.database == r.value.db)
  {
    if !setupOk {
      return null;
    }
    var c := new Chain();
    var chunks := Chunks(text);
    ghost var done: seq<string> := [];
    var wordsRead := 0;
    var prev: Option<nat> := None;
    var li := 0;
    while li < |chunks| && (wordsToRead == -1 || wordsRead < wordsToRead)
      invariant li <= |chunks|
      invariant done == Limited(AllTokens(chunks[..li]), wordsToRead) && wordsRead == |done|
      invariant Feed(done, failAt) == Some(Builder(c.database, prev))
    {
      var ok;
      ok, prev, wordsRead, done := FeedChunk(c, chunks, li, prev, wordsRead, wordsToRead, failAt, done);
      if !ok {
        return null;
      }
      li := li + 1;
    }
    if li < |chunks| {
      AllTokensPrefix(chunks, li);
      LimitedReached(AllTokens(chunks[..li]), AllTokens(chunks), wordsToRead);
    } else {
      assert chunks[..li] == chunks;
    }
    chain := c;
  }

  // ---------------------------------------------------------------------
  // main

  /** The longest word `generate_tweet` can copy: " " + word + NUL fills its 100-byte `temp`. */
  const MaxWordLength: nat := 98

  const NumArgsError: string := "Usage: invalid number of arguments\n"
  const FilePathError: string := "Error: incorrect file path\n"
  const BuildError: string := "Failed to build Markov chain.\n"

  /** The conversion of an `int` to `unsigned int`, wrapping. */
  function Unsigned(i: int): (u: nat)
    ensures u < 0x1_0000_0000 && (u - i) % 0x1_0000_0000 == 0
    ensures 0 <= i < 0x1_0000_0000 ==> u == i
  {
    i % 0x1_0000_0000
  }

  /** The command line as `main` reads it. */
  datatype Settings = Settings(seed: nat, tweets: int, path: string, wordsToRead: int)

  /**
   * The arguments after the program name: three or four of them (`argc`
   * from 4 to 5), else the usage error. The seed is `(unsigned)(int)strtol`,
   * the counts are `(int)strtol`, and a missing fourth argument (`argv[4]`
   * is then the terminating NULL) means no word limit, -1.
   */
  function ParseSettings(args: seq<string>): (r: Option<Settings>)
    ensures r.Some? <==> 3 <= |args| <= 4
    ensures r.Some? ==> r.value.seed < 0x1_0000_0000 && r.value.path == args[2]
    ensures r.Some? ==> CString.IntMin <= r.value.tweets <= CString.IntMax
    ensures r.Some? && |args| == 3 ==> r.value.wordsToRead == -1
  {
    if |args| < 3 || |args| > 4 then None
    else
      var seed := Unsigned(CString.Atoi(args[0]));
      var words := if |args| == 4 then CString.Atoi(args[3]) else -1;
      Some(Settings(seed, CString.Atoi(args[1]), args[2], words))
  }

  /** The decimal spelling of each setting reads back as that setting. */
  lemma ParseSettingsOfDecimal(seed: nat, tweets: nat, path: string, words: Option<nat>, args: seq<string>)
    requires seed <= CString.IntMax && tweets <= CString.IntMax
    requires words.Some? ==> words.value <= CString.IntMax
    requires args == [CString.Dec(seed), CString.Dec(tweets), path]
                     + (if words.Some? then [CString.Dec(words.value)] else [])
    ensures ParseSettings(args) == Some(Settings(seed, tweets, path, if words.Some? then words.value else -1))
  {
    assert args[0] == CString.Dec(seed) && args[1] == CString.Dec(tweets) && args[2] == path;
    CString.AtoiOfDec(seed);
    CString.AtoiOfDec(tweets);
    if words.Some? {
      assert args[3] == CString.Dec(words.value);
      CString.AtoiOfDec(words.value);
    }
    ParseSettingsOf(args, seed, tweets, if words.Some? then words.value else -1);
  }

  /** The settings read from arguments whose `atoi` values are known. */
  lemma ParseSettingsOf(args: seq<string>, seed: nat, tweets: int, words: int)
    requires 3 <= |args| <= 4 && seed <= CString.IntMax
    requires CString.Atoi(args[0]) == seed && CString.Atoi(args[1]) == tweets
    requires if |args| == 4 then CString.Atoi(args[3]) == words else words == -1
    ensures ParseSettings(args) == Some(Settings(seed, tweets, args[2], words))
  {
  }

  /** A negative seed wraps around: "-1" seeds the generator with 2^32 - 1. */
  lemma SeedWraps()
    ensures ParseSettings(["-1", "5", "x"]) == Some(Settings(0xFFFF_FFFF, 5, "x", -1))
  {
    CString.StrToLOfDec(1, []);
    assert "1" == CString.Dec(1) + [];
    assert CString.StrToL("-1").value == -1;
    CString.StrToLOfDec(5, []);
    assert "5" == CString.Dec(5) + [];
  }

  /** What `fgets(buffer, 1000, temp)` reads back from the tweet file: its first line, at most 999 characters. */
  function FirstLine(s: string): (r: string)
    ensures r <= s && |r| < LineBuffer
    ensures s != [] ==> r != [] && (r == s || r[|r| - 1] == '\n' || |r| == LineBuffer - 1)
    ensures forall i :: 0 <= i < |r| - 1 ==> r[i] != '\n'
  {
    if s == [] then [] else s[..ChunkLength(s)]
  }

  /** A tweet of fewer than 999 characters without a newline is read back whole. */
  lemma FirstLineOfShort(s: string)
    requires '\n' !in s && |s| < LineBuffer - 1
    ensures FirstLine(s + "\n") == s + "\n"
  {
    CString.IndexOfAt(s, [], '\n');
    assert s + ['\n'] + [] == s + "\n";
  }

  /** What `main` prints for one tweet: its number and the line read back. */
  datatype Printed = Printed(number: int, line: string)

  /**
   * The tweet loop of `main` from tweet number `i` to `count`, with the next
   * draw at `at`: a tweet without a first word, or whose `tmpfile()` fails
   * (its number is in `tmpFails`), is skipped; a generated tweet is printed
   * only when `generate_tweet` returns a positive count.
   */
  function TweetsFrom(db: seq<MarkovNode>, rand: Draws, at: nat, i: int, count: int, maxLength: int,
                      tmpFails: set<int>): seq<Printed>
    requires WellFormed(db)
    decreases if i <= count then count - i + 1 else 0
  {
    if i > count then []
    else
      var (p, next) := TweetAt(db, rand, at, i, maxLength, tmpFails);
      p + TweetsFrom(db, rand, next, i + 1, count, maxLength, tmpFails)
  }

  /**
   * One pass of the tweet loop, for tweet number `i` with the next draw at
   * `at`: what it prints (nothing, or one numbered line) and the next draw.
   */
  function TweetAt(db: seq<MarkovNode>, rand: Draws, at: nat, i: int, maxLength: int, tmpFails: set<int>)
    : (r: (seq<Printed>, nat))
    requires WellFormed(db)
    ensures |r.0| <= 1 && at <= r.1
    ensures r.0 != [] ==> r.0[0].number == i && i !in tmpFails && 0 < |r.0[0].line| < LineBuffer
  {
    var (first, next) := FirstRandom(db, rand, at);
    if first.None? || i in tmpFails then ([], next)
    else
      var t := GenerateTweetSpec(db, first.value, rand, next, maxLength);
      if t.words > 0 then ([Printed(i, FirstLine(Render(db, t.path) + "\n"))], t.at) else ([], t.at)
  }

  /**
   * Printed tweets numbered from `i` to `count`, in increasing order and
   * so each at most once, none whose `tmpfile()` failed, and each with a
   * non-empty line shorter than the 1000-byte buffer.
   */
  predicate Numbered(ps: seq<Printed>, i: int, count: int, tmpFails: set<int>) {
    && |ps| <= (if i <= count then count - i + 1 else 0)
    && (forall k :: 0 <= k < |ps| ==> i <= ps[k].number <= count && ps[k].number !in tmpFails)
    && (forall j, k :: 0 <= j < k < |ps| ==> ps[j].number < ps[k].number)
    && (forall k :: 0 <= k < |ps| ==> 0 < |ps[k].line| < LineBuffer)
  }

  /** Tweets numbered from i + 1 on, after tweet i or without it, are numbered from i on. */
  lemma NumberedCons(ps: seq<Printed>, p: seq<Printed>, i: int, count: int, tmpFails: set<int>)
    requires i <= count && Numbered(ps, i + 1, count, tmpFails) && |p| <= 1
    requires p != [] ==> p[0].number == i && i !in tmpFails && 0 < |p[0].line| < LineBuffer
    ensures Numbered(p + ps, i, count, tmpFails)
  {
  }

  /** What `main`'s tweet loop prints is numbered as `Numbered` says. */
  lemma {:induction false} TweetsFromShape(db: seq<MarkovNode>, rand: Draws, at: nat, i: int, count: int,
                                           maxLength: int, tmpFails: set<int>)
    requires WellFormed(db)
    ensures Numbered(TweetsFrom(db, rand, at, i, count, maxLength, tmpFails), i, count, tmpFails)
    decreases if i <= count then count - i + 1 else 0
  {
    if i <= count {
      var (p, next) := TweetAt(db, rand, at, i, maxLength, tmpFails);
      TweetsFromShape(db, rand, next, i + 1, count, maxLength, tmpFails);
      NumberedCons(TweetsFrom(db, rand, next, i + 1, count, maxLength, tmpFails), p, i, count, tmpFails);
    }
  }

  /** A database whose every word ends a sentence prints no tweet. */
  lemma {:induction false} NoOpeningWordNoTweets(db: seq<MarkovNode>, rand: Draws, at: nat, i: int, count: int,
                                                 maxLength: int, tmpFails: set<int>)
    requires WellFormed(db) && forall j :: 0 <= j < |db| ==> db[j].isLast
    ensures TweetsFrom(db, rand, at, i, count, maxLength, tmpFails) == []
    decreases if i <= count then count - i + 1 else 0
  {
    if i <= count {
      FirstRandomOfAllLast(db, rand, at);
      var next := if |db| == 0 then at else at + MaxAttempts;
      assert TweetAt(db, rand, at, i, maxLength, tmpFails) == ([], next);
      NoOpeningWordNoTweets(db, rand, next, i + 1, count, maxLength, tmpFails);
    }
  }

  /** Every record's word fits `generate_tweet`'s buffers. */
  predicate WordsFit(db: seq<MarkovNode>) {
    forall i :: 0 <= i < |db| ==> |db[i].word| <= MaxWordLength
  }

  /** One pass of `main`'s tweet loop: the `TweetAt` specification. */
  method TweetOnce(chain: Chain, rand: Draws, at: nat, i: int, maxLength: int, tmpFails: set<int>)
    returns (p: seq<Printed>, next: nat)
    requires WellFormed(chain.database) && WordsFit(chain.database)
    ensures (p, next) == TweetAt(chain.database, rand, at, i, maxLength, tmpFails)
  {
    var first, n := chain.GetFirstRandom(rand, at);
    if first.None? || i in tmpFails {
      return [], n;
    }
    var words, output, n2 := chain.GenerateTweet(first.value, rand, n, maxLength);
    p := if words > 0 then [Printed(i, FirstLine(output))] else [];
    next := n2;
  }

  lemma AppendAssoc(a: seq<Printed>, b: seq<Printed>, c: seq<Printed>)
    ensures (a + b) + c == a + (b + c)
  {
  }

  /** `main`'s tweet loop `for (i = 1; i <= tweets_count; i++)`, with `srand`'s stream `rand`. */
  method GenerateTweets(chain: Chain, rand: Draws, count: int, maxLength: int, tmpFails: set<int>)
    returns (printed: seq<Printed>)
    requires WellFormed(chain.database) && WordsFit(chain.database)
    ensures printed == TweetsFrom(chain.database, rand, 0, 1, count, maxLength, tmpFails)
  {
    ghost var db := chain.database;
    ghost var goal := TweetsFrom(db, rand, 0, 1, count, maxLength, tmpFails);
    printed := [];
    var i := 1;
    var at := 0;
    while i <= count
      invariant printed + TweetsFrom(db, rand, at, i, count, maxLength, tmpFails) == goal
      decreases count - i + 1
    {
      var p, next := TweetOnce(chain, rand, at, i, maxLength, tmpFails);
      AppendAssoc(printed, p, TweetsFrom(db, rand, next, i + 1, count, maxLength, tmpFails));
      printed, at, i := printed + p, next, i + 1;
    }
  }

  /** How `main` ends: the errors it exits with status 1 on, or the tweets it printed. */
  datatype Outcome = CwdFailed | UsageFailed | FileFailed | BuildFailed | Tweets(printed: seq<Printed>)

  /**
   * `main` on the arguments after the program name. `cwdOk` is whether
   * `getcwd` succeeds, `files` maps each path `fopen` can open to its text,
   * `seeded(seed)` is the `rand()` stream after `srand(seed)`, `maxLength`
   * is MAX_TWEET_LENGTH, and `setupOk`, `failAt` and `tmpFails` say which
   * allocations and which `tmpfile()` calls fail.
   */
  function Run(cwdOk: bool, args: seq<string>, files: map<string, string>, setupOk: bool, failAt: Option<nat>,
               seeded: nat -> Draws, maxLength: int, tmpFails: set<int>): Outcome
  {
    if !cwdOk then CwdFailed
    else match ParseSettings(args)
      case None => UsageFailed
      case Some(s) =>
        if s.path !in files then FileFailed
        else
          var ts := Processed(files[s.path], s.wordsToRead);
          if !setupOk then BuildFailed
          else match Feed(ts, failAt)
          case None => BuildFailed
          case Some(b) =>
            FeedBuilt(ts, failAt, b);
            Tweets(TweetsFrom(b.db, seeded(s.seed), 0, 1, s.tweets, maxLength, tmpFails))
  }

  /**
   * What `main` writes to standard output (`perror` writes to standard
   * error). `allocError` is ALLOCATION_ERROR_MASSAGE, whose text lives in a
   * header that is not part of this model: every failed build prints it
   * once, at the allocation that fails, before `main` reports the failure.
   */
  function Stdout(o: Outcome, allocError: string): string {
    match o
    case CwdFailed => ""
    case UsageFailed => NumArgsError
    case FileFailed => FilePathError
    case BuildFailed => allocError + BuildError
    case Tweets(ps) => TweetLines(ps)
  }

  /** The text one printed tweet adds to standard output: `printf("Tweet %d: ", i)` and the copied line. */
  function TweetLine(p: Printed): string {
    "Tweet " + CString.IntDec(p.number) + ": " + p.line
  }

  /** The text of the printed tweets, in order. */
  function TweetLines(ps: seq<Printed>): string {
    if ps == [] then "" else TweetLine(ps[0]) + TweetLines(ps[1..])
  }

  /** Each pass of the tweet loop that prints appends its tweet's text after everything printed before. */
  lemma {:induction false} TweetLinesSnoc(ps: seq<Printed>, p: Printed)
    ensures TweetLines(ps + [p]) == TweetLines(ps) + TweetLine(p)
    decreases |ps|
  {
    if ps == [] {
      assert [p][1..] == [];
    } else {
      assert (ps + [p])[1..] == ps[1..] + [p];
      TweetLinesSnoc(ps[1..], p);
    }
  }

  /** Tweet output is empty exactly when no tweet was printed, and otherwise starts with the first tweet's header. */
  lemma TweetLinesShape(ps: seq<Printed>)
    ensures TweetLines(ps) == "" <==> ps == []
    ensures ps != [] ==> TweetLines(ps)[..|TweetLine(ps[0])|] == TweetLine(ps[0])
  {
  }

  /** `main`'s exit status: EXIT_SUCCESS after the tweet loop, EXIT_FAILURE on every error. */
  function ExitStatus(o: Outcome): int {
    if o.Tweets? then 0 else 1
  }

  /**
   * `main` exits with status 0 exactly when the working directory, the
   * argument count, the file and every allocation of the build succeed; it
   * then prints only tweets. Each error exits with status 1 after printing
   * its message: none for `getcwd`, the usage and file-path errors, and the
   * allocation error followed by the build error.
   */
  lemma RunExit(cwdOk: bool, args: seq<string>, files: map<string, string>, setupOk: bool, failAt: Option<nat>,
                seeded: nat -> Draws, maxLength: int, tmpFails: set<int>, allocError: string)
    ensures var o := Run(cwdOk, args, files, setupOk, failAt, seeded, maxLength, tmpFails);
      && (ExitStatus(o) == 0 <==>
            (cwdOk && 3 <= |args| <= 4 && args[2] in files && setupOk &&
             var ts := Processed(files[args[2]], ParseSettings(args).value.wordsToRead);
             !(failAt.Some? && failAt.value < |ts| && NeedsAlloc(ts, failAt.value))))
      && (!cwdOk ==> Stdout(o, allocError) == "")
      && (cwdOk && !(3 <= |args| <= 4) ==> Stdout(o, allocError) == NumArgsError)
      && (cwdOk && 3 <= |args| <= 4 && args[2] !in files ==> Stdout(o, allocError) == FilePathError)
      && (o.BuildFailed? ==> Stdout(o, allocError) == allocError + BuildError)
      && (o.Tweets? ==> Stdout(o, allocError) == TweetLines(o.printed))
  {
    RunOutcomes(cwdOk, args, files, setupOk, failAt, seeded, maxLength, tmpFails);
  }

  /**
   * `main` fails with the usage error exactly for a wrong argument count,
   * with the file error exactly for a path it cannot open, and with the
   * build error exactly when the chain or its database cannot be allocated
   * or an allocation a word needs fails; without failing allocations every
   * readable file yields tweets.
   */
  lemma RunOutcomes(cwdOk: bool, args: seq<string>, files: map<string, string>, setupOk: bool, failAt: Option<nat>,
                    seeded: nat -> Draws, maxLength: int, tmpFails: set<int>)
    ensures var o := Run(cwdOk, args, files, setupOk, failAt, seeded, maxLength, tmpFails);
      && (o == CwdFailed <==> !cwdOk)
      && (o == UsageFailed <==> cwdOk && !(3 <= |args| <= 4))
      && (o == FileFailed <==> cwdOk && 3 <= |args| <= 4 && args[2] !in files)
      && (o == BuildFailed <==>
            (cwdOk && 3 <= |args| <= 4 && args[2] in files &&
             var ts := Processed(files[args[2]], ParseSettings(args).value.wordsToRead);
             (!setupOk || (failAt.Some? && failAt.value < |ts| && NeedsAlloc(ts, failAt.value)))))
  {
    if cwdOk && 3 <= |args| <= 4 && args[2] in files {
      var ts := Processed(files[args[2]], ParseSettings(args).value.wordsToRead);
      FeedFails(ts, failAt);
    }
  }

  /** Every record of a chain built from words that fit holds a word that fits. */
  lemma BuiltWordsFit(text: string, wordsToRead: int, b: Builder)
    requires forall k :: 0 <= k < |AllTokens(Chunks(text))| ==> |AllTokens(Chunks(text))[k]| <= MaxWordLength
    requires OnlyWords(Processed(text, wordsToRead), b.db)
    ensures WordsFit(b.db)
  {
    var ts := Processed(text, wordsToRead);
    forall i | 0 <= i < |b.db| ensures |b.db[i].word| <= MaxWordLength {
      var k :| 0 <= k < |ts| && ts[k] == b.db[i].word;
      assert ts[k] == AllTokens(Chunks(text))[k];
    }
  }

  /**
   * `main`. The words of every file are at most 98 characters long: a
   * longer one overflows `generate_tweet`'s `temp` buffer.
   */
  method RunGenerator(cwdOk: bool, args: seq<string>, files: map<string, string>, setupOk: bool, failAt: Option<nat>,
                      seeded: nat -> Draws, maxLength: int, tmpFails: set<int>) returns (o: Outcome)
    requires forall p :: p in files ==>
      forall k :: 0 <= k < |AllTokens(Chunks(files[p]))| ==> |AllTokens(Chunks(files[p]))[k]| <= MaxWordLength
    ensures o == Run(cwdOk, args, files, setupOk, failAt, seeded, maxLength, tmpFails)
  {
    if !cwdOk {
      return CwdFailed;
    }
    var settings := ParseSettings(args);
    if settings.None? {
      return UsageFailed;
    }
    var s := settings.value;
    if s.path !in files {
      return FileFailed;
    }
    var chain := BuildMarkovChain(files[s.path], s.wordsToRead, setupOk, failAt);
    if chain == null {
      return BuildFailed;
    }
    ghost var ts := Processed(files[s.path], s.wordsToRead);
    FeedBuilt(ts, failAt, Feed(ts, failAt).value);
    BuiltWordsFit(files[s.path], s.wordsToRead, Feed(ts, failAt).value);
    var printed := GenerateTweets(chain, seeded(s.seed), s.tweets, maxLength, tmpFails);
    o := Tweets(printed);
  }
}
