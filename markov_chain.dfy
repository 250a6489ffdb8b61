/**
 * The Markov word table of Assignment_01/markov_chain.c.
 *
 * The C database is a linked list of MarkovNode records; each record holds a
 * word, its `is_last` flag (the word ends a sentence), and a realloc-grown
 * frequency list of (successor, count) entries with a running total. Here the
 * database is a sequence of records held by a `MarkovChain` object, and a
 * record is identified by its position in that sequence: positions never
 * change, since records are only ever appended. A successor entry names its
 * successor by that position.
 *
 * `rand()` is the parameter `rand`: the k-th value the generator returns is
 * `rand(k)`, and each operation that draws says where in that stream it
 * starts and where it stops.
 */
module MarkovChain {

  datatype Option<T> = None | Some(value: T)

  /** The `rand()` stream: `rand(k)` is the k-th value it returns. */
  type Draws = nat -> nat

  /** The number of draws `get_first_random_node` makes before it gives up. */
  const MaxAttempts: nat := 1000

  /** One entry of a frequency list: a successor and how often it followed. */
  datatype Freq = Freq(next: nat, count: int)

  /** A database record. */
  datatype MarkovNode = MarkovNode(word: string, isLast: bool, freqs: seq<Freq>, total: int)

  // ---------------------------------------------------------------------
  // Frequency lists

  /** The sum of the counts of a frequency list. */
  function Sum(fs: seq<Freq>): int {
    if fs == [] then 0 else Sum(fs[..|fs| - 1]) + fs[|fs| - 1].count
  }

  /** How often `j` is recorded as following: the count of its entries. */
  function CountOf(fs: seq<Freq>, j: nat): int {
    if fs == [] then 0
    else CountOf(fs[..|fs| - 1], j) + (if fs[|fs| - 1].next == j then fs[|fs| - 1].count else 0)
  }

  /** The position of the entry for successor `j`, as the C loop finds it. */
  function FindNext(fs: seq<Freq>, j: nat): (r: Option<nat>)
    ensures r.Some? ==> r.value < |fs| && fs[r.value].next == j
    ensures r.Some? ==> forall k :: 0 <= k < r.value ==> fs[k].next != j
    ensures r.None? ==> forall k :: 0 <= k < |fs| ==> fs[k].next != j
  {
    if fs == [] then None
    else if fs[0].next == j then Some(0)
    else match FindNext(fs[1..], j)
      case None => None
      case Some(k) => Some(k + 1)
  }

  /** No successor has two entries. */
  predicate DistinctNext(fs: seq<Freq>) {
    forall a, b :: 0 <= a < b < |fs| ==> fs[a].next != fs[b].next
  }

  /** A record as the operations keep it, in a database of `size` records. */
  predicate NodeOk(n: MarkovNode, size: nat) {
    && n.word != []
    && n.isLast == (n.word[|n.word| - 1] == '.')
    && (forall k :: 0 <= k < |n.freqs| ==> n.freqs[k].next < size && n.freqs[k].count >= 1)
    && DistinctNext(n.freqs)
    && n.total == Sum(n.freqs)
    && n.total >= |n.freqs|
  }

  /**
   * The database invariant: every record is well kept and no word occurs
   * twice (`add_to_database` returns the existing record for a known word).
   */
  predicate WellFormed(db: seq<MarkovNode>) {
    && (forall i :: 0 <= i < |db| ==> NodeOk(db[i], |db|))
    && (forall i, j :: 0 <= i < j < |db| ==> db[i].word != db[j].word)
  }

  // ---------------------------------------------------------------------
  // The database operations, as functions of the database

  /** The record holding `word`, as `get_node_from_database` finds it. */
  function Lookup(db: seq<MarkovNode>, word: string): (r: Option<nat>)
    ensures r.Some? ==> r.value < |db| && db[r.value].word == word
    ensures r.Some? ==> forall k :: 0 <= k < r.value ==> db[k].word != word
    ensures r.None? ==> forall k :: 0 <= k < |db| ==> db[k].word != word
  {
    if db == [] then None
    else if db[0].word == word then Some(0)
    else match Lookup(db[1..], word)
      case None => None
      case Some(k) => Some(k + 1)
  }

  /** The record `add_to_database` creates for a word it has not seen. */
  function NewNode(word: string): MarkovNode
    requires word != []
  {
    MarkovNode(word, word[|word| - 1] == '.', [], 0)
  }

  /** The database after `add_to_database(word)` succeeds. */
  function Added(db: seq<MarkovNode>, word: string): seq<MarkovNode>
    requires word != []
  {
    if Lookup(db, word).Some? then db else db + [NewNode(word)]
  }

  /** A record after `add_node_to_frequencies_list(node, j)` succeeds. */
  function Record(n: MarkovNode, j: nat): MarkovNode {
    match FindNext(n.freqs, j)
    case Some(k) =>
      n.(freqs := n.freqs[k := Freq(j, n.freqs[k].count + 1)], total := n.total + 1)
    case None =>
      n.(freqs := n.freqs + [Freq(j, 1)], total := n.total + 1)
  }

  // ---------------------------------------------------------------------
  // Properties of the database operations

  /** Raising one entry's count by one raises the sum by one. */
  lemma {:induction false} SumBump(fs: seq<Freq>, k: nat)
    requires k < |fs|
    ensures Sum(fs[k := Freq(fs[k].next, fs[k].count + 1)]) == Sum(fs) + 1
  {
    var gs := fs[k := Freq(fs[k].next, fs[k].count + 1)];
    if k < |fs| - 1 {
      assert gs[..|gs| - 1] == fs[..|fs| - 1][k := Freq(fs[k].next, fs[k].count + 1)];
      SumBump(fs[..|fs| - 1], k);
    } else {
      assert gs[..|gs| - 1] == fs[..|fs| - 1];
    }
  }

  /** Raising one entry's count by one raises the count of its successor by one. */
  lemma {:induction false} CountBump(fs: seq<Freq>, k: nat, i: nat)
    requires k < |fs|
    ensures CountOf(fs[k := Freq(fs[k].next, fs[k].count + 1)], i)
            == CountOf(fs, i) + (if fs[k].next == i then 1 else 0)
  {
    var gs := fs[k := Freq(fs[k].next, fs[k].count + 1)];
    if k < |fs| - 1 {
      assert gs[..|gs| - 1] == fs[..|fs| - 1][k := Freq(fs[k].next, fs[k].count + 1)];
      CountBump(fs[..|fs| - 1], k, i);
    } else {
      assert gs[..|gs| - 1] == fs[..|fs| - 1];
    }
  }

  /** With positive counts, a successor has a positive count exactly when it has an entry. */
  lemma {:induction false} CountOfPositive(fs: seq<Freq>, j: nat)
    requires forall k :: 0 <= k < |fs| ==> fs[k].count >= 1
    ensures CountOf(fs, j) >= 0
    ensures CountOf(fs, j) > 0 <==> FindNext(fs, j).Some?
  {
    if fs != [] {
      var init := fs[..|fs| - 1];
      CountOfPositive(init, j);
      assert forall k :: 0 <= k < |init| ==> init[k] == fs[k];
      if FindNext(init, j).Some? {
        assert fs[FindNext(init, j).value].next == j;
      }
      if fs[|fs| - 1].next == j {
        assert FindNext(fs, j).Some?;
      }
    }
  }

  /**
   * `add_node_to_frequencies_list` keeps a record well kept; the successor's
   * count and the total each grow by one and no other count moves; the list
   * grows only when the successor is new.
   */
  lemma RecordProperties(n: MarkovNode, size: nat, j: nat)
    requires NodeOk(n, size) && j < size
    ensures NodeOk(Record(n, j), size)
    ensures Record(n, j).word == n.word && Record(n, j).isLast == n.isLast
    ensures Record(n, j).total == n.total + 1
    ensures forall i: nat :: CountOf(Record(n, j).freqs, i) == CountOf(n.freqs, i) + (if i == j then 1 else 0)
    ensures |Record(n, j).freqs| == if FindNext(n.freqs, j).Some? then |n.freqs| else |n.freqs| + 1
  {
    match FindNext(n.freqs, j)
    case Some(k) => RecordBump(n, size, j, k);
    case None => RecordAppend(n, size, j);
  }

  lemma RecordBump(n: MarkovNode, size: nat, j: nat, k: nat)
    requires NodeOk(n, size) && j < size && FindNext(n.freqs, j) == Some(k)
    ensures NodeOk(Record(n, j), size)
    ensures forall i: nat :: CountOf(Record(n, j).freqs, i) == CountOf(n.freqs, i) + (if i == j then 1 else 0)
  {
    var fs := n.freqs;
    var gs := fs[k := Freq(j, fs[k].count + 1)];
    assert Record(n, j).freqs == gs;
    SumBump(fs, k);
    assert forall a :: 0 <= a < |gs| ==> gs[a].next == fs[a].next;
    forall i: nat ensures CountOf(gs, i) == CountOf(fs, i) + (if i == j then 1 else 0) {
      CountBump(fs, k, i);
    }
  }

  lemma RecordAppend(n: MarkovNode, size: nat, j: nat)
    requires NodeOk(n, size) && j < size && FindNext(n.freqs, j).None?
    ensures NodeOk(Record(n, j), size)
    ensures forall i: nat :: CountOf(Record(n, j).freqs, i) == CountOf(n.freqs, i) + (if i == j then 1 else 0)
  {
    var fs := n.freqs;
    var gs := fs + [Freq(j, 1)];
    assert Record(n, j).freqs == gs;
    assert gs[..|gs| - 1] == fs;
  }

  /**
   * `add_to_database` keeps the database well formed and never duplicates a
   * word: a known word leaves the database as it was, a new one is appended
   * last with an empty list; the earlier records stay where they were, and
   * the word is found afterwards.
   */
  lemma AddedProperties(db: seq<MarkovNode>, word: string)
    requires WellFormed(db) && word != []
    ensures WellFormed(Added(db, word))
    ensures Lookup(db, word).Some? ==> Added(db, word) == db
    ensures Lookup(db, word).None? ==> Added(db, word) == db + [NewNode(word)]
                                       && Lookup(Added(db, word), word) == Some(|db|)
    ensures Lookup(Added(db, word), word).Some?
    ensures |db| <= |Added(db, word)| && Added(db, word)[..|db|] == db
  {
    if Lookup(db, word).None? {
      var db2 := db + [NewNode(word)];
      forall i | 0 <= i < |db2| ensures NodeOk(db2[i], |db2|) {
        if i < |db| {
          assert NodeOk(db[i], |db|);
        }
      }
      assert db2[..|db|] == db;
      assert db2[|db|].word == word;
      assert forall i, j :: 0 <= i < j < |db2| ==> db2[i].word != db2[j].word by {
        forall i, j | 0 <= i < j < |db2| ensures db2[i].word != db2[j].word {
          if j < |db| { assert db2[i] == db[i] && db2[j] == db[j]; }
        }
      }
    }
  }

  /** Adding a word a second time changes nothing. */
  lemma AddedIdempotent(db: seq<MarkovNode>, word: string)
    requires WellFormed(db) && word != []
    ensures Added(Added(db, word), word) == Added(db, word)
  {
    AddedProperties(db, word);
  }

  /** Recording a successor keeps the database well formed. */
  lemma RecordKeepsWellFormed(db: seq<MarkovNode>, first: nat, second: nat)
    requires WellFormed(db) && first < |db| && second < |db|
    ensures WellFormed(db[first := Record(db[first], second)])
  {
    RecordProperties(db[first], |db|, second);
  }

  /** Two databases with the same words in the same places look words up alike. */
  lemma {:induction false} LookupSameWords(db: seq<MarkovNode>, db2: seq<MarkovNode>, word: string)
    requires |db| == |db2| && forall i :: 0 <= i < |db| ==> db[i].word == db2[i].word
    ensures Lookup(db, word) == Lookup(db2, word)
  {
    if db != [] && db[0].word != word {
      LookupSameWords(db[1..], db2[1..], word);
    }
  }

  /** Appending records leaves the lookup of a word already present alone. */
  lemma {:induction false} LookupExtend(db: seq<MarkovNode>, more: seq<MarkovNode>, word: string)
    requires Lookup(db, word).Some?
    ensures Lookup(db + more, word) == Lookup(db, word)
  {
    if db[0].word != word {
      assert (db + more)[1..] == db[1..] + more;
      LookupExtend(db[1..], more, word);
    }
  }

  // ---------------------------------------------------------------------
  // Random selection

  /** The cumulative count of the entries before entry k. */
  function Before(fs: seq<Freq>, k: nat): int
    requires k <= |fs|
  {
    Sum(fs[..k])
  }

  /** The cumulative count through entry k. */
  function Through(fs: seq<Freq>, k: nat): int
    requires k < |fs|
  {
    Sum(fs[..k + 1])
  }

  /**
   * The scan of `get_next_random_node` from entry i on: the first entry whose
   * cumulative count exceeds r, or None when none does.
   */
  function PickFrom(fs: seq<Freq>, r: int, i: nat): (k: Option<nat>)
    requires i <= |fs|
    ensures k.Some? ==> i <= k.value < |fs| && r < Through(fs, k.value)
    ensures k.Some? ==> forall m :: i <= m < k.value ==> Through(fs, m) <= r
    ensures k.None? ==> forall m :: i <= m < |fs| ==> Through(fs, m) <= r
    decreases |fs| - i
  {
    if i == |fs| then None
    else if r < Through(fs, i) then Some(i)
    else PickFrom(fs, r, i + 1)
  }

  /**
   * The successor `get_next_random_node` picks for the draw d: None when the
   * word has no list (nothing is drawn then); otherwise the entry chosen by
   * `d % total`, and the first entry if the scan ever fell through.
   */
  function NextWord(n: MarkovNode, d: nat): Option<nat>
    requires n.freqs != [] ==> n.total > 0
  {
    if n.freqs == [] then None
    else match PickFrom(n.freqs, d % n.total, 0)
      case Some(k) => Some(n.freqs[k].next)
      case None => Some(n.freqs[0].next)
  }

  /** With positive counts the prefix sums grow. */
  lemma {:induction false} SumPrefixGrows(fs: seq<Freq>, a: nat, b: nat)
    requires a <= b <= |fs| && forall k :: 0 <= k < |fs| ==> fs[k].count >= 1
    ensures Before(fs, a) + (b - a) <= Before(fs, b)
    decreases b - a
  {
    if a < b {
      SumPrefixGrows(fs, a, b - 1);
      assert fs[..b][..b - 1] == fs[..b - 1];
    }
  }

  /** A draw below the total is picked by some entry at or after i. */
  lemma {:induction false} PickFromFound(fs: seq<Freq>, r: int, i: nat)
    requires i < |fs| && r < Sum(fs)
    ensures PickFrom(fs, r, i).Some?
    decreases |fs| - i
  {
    assert fs[..|fs|] == fs;
    if i + 1 < |fs| {
      PickFromFound(fs, r, i + 1);
    }
  }

  /**
   * For a draw below the total, the scan never falls through: entry k is
   * picked exactly when the draw lies in [Before(fs, k), Through(fs, k)).
   */
  lemma PickFromIsInterval(fs: seq<Freq>, r: int, k: nat)
    requires forall m :: 0 <= m < |fs| ==> fs[m].count >= 1
    requires 0 <= r < Sum(fs) && k < |fs|
    ensures PickFrom(fs, r, 0).Some?
    ensures PickFrom(fs, r, 0) == Some(k) <==> Before(fs, k) <= r < Through(fs, k)
  {
    PickFromFound(fs, r, 0);
    var j := PickFrom(fs, r, 0).value;
    if j > 0 {
      assert Through(fs, j - 1) <= r;
      assert fs[..j] == fs[..j - 1 + 1];
    } else {
      assert fs[..0] == [];
    }
    if k < j {
      assert Through(fs, k) <= r;
    } else if j < k {
      SumPrefixGrows(fs, j + 1, k);
      assert Through(fs, j) == Before(fs, j + 1);
    }
  }

  /**
   * `get_next_random_node` on a well-kept record with a list: the pick is a
   * recorded successor, namely the entry whose cumulative interval holds
   * `d % total`, so each successor is picked for as many residues as its count.
   */
  lemma NextWordIsWeighted(n: MarkovNode, size: nat, d: nat, k: nat)
    requires NodeOk(n, size) && k < |n.freqs|
    ensures NextWord(n, d).Some? && NextWord(n, d).value < size
    ensures FindNext(n.freqs, NextWord(n, d).value).Some?
    ensures NextWord(n, d) == Some(n.freqs[k].next) <== Before(n.freqs, k) <= d % n.total < Through(n.freqs, k)
  {
    PickFromIsInterval(n.freqs, d % n.total, k);
    var j := PickFrom(n.freqs, d % n.total, 0).value;
    assert FindNext(n.freqs, n.freqs[j].next).Some?;
  }

  /** A word without successors yields no pick. */
  lemma NextWordOfNoList(n: MarkovNode, d: nat)
    requires n.freqs == []
    ensures NextWord(n, d) == None
  {
  }

  /** The pick for a well-kept record, when there is one, is a recorded successor in the database. */
  lemma NextWordInRange(n: MarkovNode, size: nat, d: nat)
    requires NodeOk(n, size)
    ensures n.freqs != [] ==> n.total > 0
    ensures n.freqs != [] ==> NextWord(n, d).Some?
    ensures n.freqs != [] ==> NextWord(n, d).value < size && FindNext(n.freqs, NextWord(n, d).value).Some?
  {
    if n.freqs != [] {
      NextWordIsWeighted(n, size, d, 0);
    }
  }

  /** `get_random_number(size)` for the draw d: `rand() % size`. */
  function Slot(d: nat, size: nat): (i: nat)
    requires size > 0
    ensures i < size
  {
    d % size
  }

  /**
   * The attempts of `get_first_random_node` from draw `at` on, with
   * `attempts` left: each draws `rand(at) % size` and stops at a word that
   * does not end a sentence. The result and the next unused draw.
   */
  function FirstTry(db: seq<MarkovNode>, rand: Draws, at: nat, attempts: nat): (r: (Option<nat>, nat))
    requires |db| > 0
    ensures r.0.Some? ==> at < r.1 && r.0.value < |db| && !db[r.0.value].isLast && r.0.value == Slot(rand(r.1 - 1), |db|)
    ensures at <= r.1 <= at + attempts
    ensures r.0.None? ==> r.1 == at + attempts
    decreases attempts
  {
    if attempts == 0 then (None, at)
    else
      var index := Slot(rand(at), |db|);
      if !db[index].isLast then (Some(index), at + 1)
      else FirstTry(db, rand, at + 1, attempts - 1)
  }

  /** An attempt that draws a sentence-ending word leaves the rest to the following attempts. */
  lemma FirstTryMiss(db: seq<MarkovNode>, rand: Draws, at: nat, attempts: nat)
    requires |db| > 0 && attempts > 0 && db[Slot(rand(at), |db|)].isLast
    ensures FirstTry(db, rand, at, attempts) == FirstTry(db, rand, at + 1, attempts - 1)
  {
  }

  /** The attempts fail exactly when every one of their draws lands on a sentence-ending word. */
  lemma {:induction false} FirstTryFails(db: seq<MarkovNode>, rand: Draws, at: nat, attempts: nat)
    requires |db| > 0
    ensures FirstTry(db, rand, at, attempts).0.None? <==>
              forall k :: at <= k < at + attempts ==> db[Slot(rand(k), |db|)].isLast
    decreases attempts
  {
    if attempts > 0 {
      FirstTryFails(db, rand, at + 1, attempts - 1);
    }
  }

  /** `get_first_random_node`: None, without drawing, for an empty database. */
  function FirstRandom(db: seq<MarkovNode>, rand: Draws, at: nat): (Option<nat>, nat) {
    if |db| == 0 then (None, at) else FirstTry(db, rand, at, MaxAttempts)
  }

  /** A database whose every word ends a sentence never yields a first word. */
  lemma FirstRandomOfAllLast(db: seq<MarkovNode>, rand: Draws, at: nat)
    requires forall i :: 0 <= i < |db| ==> db[i].isLast
    ensures FirstRandom(db, rand, at) == (None, if |db| == 0 then at else at + MaxAttempts)
  {
    if |db| > 0 {
      FirstTryFails(db, rand, at, MaxAttempts);
    }
  }

  // ---------------------------------------------------------------------
  // Tweet generation

  /** What `generate_tweet` returns, the words it chose, and the next unused draw. */
  datatype Tweet = Tweet(words: int, path: seq<nat>, at: nat)

  /**
   * The pick of `get_next_random_node` for record i of a well-formed
   * database: None exactly for a word without successors, and otherwise a
   * recorded successor.
   */
  function Successor(db: seq<MarkovNode>, i: nat, d: nat): (r: Option<nat>)
    requires WellFormed(db) && i < |db|
    ensures r.None? <==> db[i].freqs == []
    ensures r.Some? ==> r.value < |db| && FindNext(db[i].freqs, r.value).Some?
  {
    NextWordInRange(db[i], |db|, d);
    NextWord(db[i], d)
  }

  /**
   * The loop of `generate_tweet`, with the words chosen so far in `path`
   * (the last being the current one): while fewer than `maxLength` words
   * are held, pick a successor; a word without successors ends the tweet
   * with -1; a sentence-ending word, or reaching `maxLength` words, ends it
   * with the word count.
   */
  function TweetLoop(db: seq<MarkovNode>, rand: Draws, at: nat, path: seq<nat>, maxLength: int): (t: Tweet)
    requires WellFormed(db) && |path| > 0 && forall k :: 0 <= k < |path| ==> path[k] < |db|
    ensures |path| <= |t.path| && at <= t.at
    ensures forall k :: 0 <= k < |t.path| ==> t.path[k] < |db|
    ensures t.words == -1 || t.words == |t.path|
    decreases maxLength - |path|
  {
    var cur := path[|path| - 1];
    if |path| >= maxLength then Tweet(-1, path, at)
    else match Successor(db, cur, rand(at))
      case None => Tweet(-1, path, at)
      case Some(w) =>
        var p := path + [w];
        if db[w].isLast || |p| >= maxLength then Tweet(|p|, p, at + 1)
        else TweetLoop(db, rand, at + 1, p, maxLength)
  }

  /** The loop only ever extends the words it holds. */
  lemma {:induction false} TweetLoopExtends(db: seq<MarkovNode>, rand: Draws, at: nat, path: seq<nat>, maxLength: int)
    requires WellFormed(db) && |path| > 0 && forall k :: 0 <= k < |path| ==> path[k] < |db|
    ensures TweetLoop(db, rand, at, path, maxLength).path[..|path|] == path
    decreases maxLength - |path|
  {
    var cur := path[|path| - 1];
    if |path| < maxLength && db[cur].freqs != [] {
      var w := Successor(db, cur, rand(at)).value;
      var p := path + [w];
      assert p[..|path|] == path;
      if !(db[w].isLast || |p| >= maxLength) {
        TweetLoopExtends(db, rand, at + 1, p, maxLength);
        var t := TweetLoop(db, rand, at + 1, p, maxLength);
        assert t.path[..|path|] == t.path[..|p|][..|path|];
      }
    }
  }

  /** `generate_tweet` started at the record `first`. */
  function GenerateTweetSpec(db: seq<MarkovNode>, first: nat, rand: Draws, at: nat, maxLength: int): Tweet
    requires WellFormed(db) && first < |db|
  {
    TweetLoop(db, rand, at, [first], maxLength)
  }

  /** Record `b` is a recorded successor of record `a`. */
  predicate Follows(db: seq<MarkovNode>, a: nat, b: nat)
    requires a < |db|
  {
    FindNext(db[a].freqs, b).Some?
  }

  /** Each word of `path` after the first is a recorded successor of the one before. */
  predicate IsWalk(db: seq<MarkovNode>, path: seq<nat>) {
    && (forall k :: 0 <= k < |path| ==> path[k] < |db|)
    && (forall k :: 1 <= k < |path| ==> Follows(db, path[k - 1], path[k]))
  }

  /** No word of `path` strictly between the first and the last ends a sentence. */
  predicate OpenInside(db: seq<MarkovNode>, path: seq<nat>)
    requires forall k :: 0 <= k < |path| ==> path[k] < |db|
  {
    forall k :: 0 < k < |path| - 1 ==> !db[path[k]].isLast
  }

  /** A pass of the loop that picks a word neither ending a sentence nor reaching the cap goes on from it. */
  lemma TweetLoopGoesOn(db: seq<MarkovNode>, rand: Draws, at: nat, path: seq<nat>, maxLength: int, w: nat, p: seq<nat>)
    requires WellFormed(db) && |path| > 0 && forall k :: 0 <= k < |path| ==> path[k] < |db|
    requires |path| < maxLength && Successor(db, path[|path| - 1], rand(at)) == Some(w)
    requires p == path + [w] && !db[w].isLast && |p| < maxLength
    ensures forall k :: 0 <= k < |p| ==> p[k] < |db|
    ensures TweetLoop(db, rand, at, path, maxLength) == TweetLoop(db, rand, at + 1, p, maxLength)
  {
  }

  /** The words the loop of `generate_tweet` chooses walk along recorded successors. */
  lemma {:induction false} TweetLoopWalk(db: seq<MarkovNode>, rand: Draws, at: nat, path: seq<nat>, maxLength: int)
    requires WellFormed(db) && |path| > 0 && IsWalk(db, path)
    requires OpenInside(db, path) && (|path| > 1 ==> !db[path[|path| - 1]].isLast)
    ensures IsWalk(db, TweetLoop(db, rand, at, path, maxLength).path)
    ensures OpenInside(db, TweetLoop(db, rand, at, path, maxLength).path)
    decreases maxLength - |path|
  {
    var cur := path[|path| - 1];
    if |path| < maxLength && db[cur].freqs != [] {
      var w := Successor(db, cur, rand(at)).value;
      var p := path + [w];
      assert Follows(db, p[|p| - 2], p[|p| - 1]);
      assert IsWalk(db, p);
      if !(db[w].isLast || |p| >= maxLength) {
        TweetLoopGoesOn(db, rand, at, path, maxLength, w, p);
        TweetLoopWalk(db, rand, at + 1, p, maxLength);
      }
    }
  }

  /**
   * How a run of the loop from the words `path` ended in `t`: with a count,
   * after at least one more word, at a sentence-ending word or at the cap;
   * with -1, at once at the cap or at a word without successors.
   */
  predicate LoopEnded(db: seq<MarkovNode>, path: seq<nat>, maxLength: int, t: Tweet)
    requires 0 < |t.path| && forall k :: 0 <= k < |t.path| ==> t.path[k] < |db|
  {
    && (t.words > 0 ==> |path| < |t.path| <= maxLength)
    && (t.words > 0 ==> db[t.path[|t.path| - 1]].isLast || |t.path| == maxLength)
    && (t.words == -1 ==> (t.path == path && |path| >= maxLength) || db[t.path[|t.path| - 1]].freqs == [])
  }

  /** An ending reached from one word more is an ending from the words before it, below the cap. */
  lemma LoopEndedBack(db: seq<MarkovNode>, path: seq<nat>, p: seq<nat>, maxLength: int, t: Tweet)
    requires 0 < |t.path| && forall k :: 0 <= k < |t.path| ==> t.path[k] < |db|
    requires |p| == |path| + 1 && |p| < maxLength && |p| <= |t.path|
    requires LoopEnded(db, p, maxLength, t)
    ensures LoopEnded(db, path, maxLength, t)
  {
  }

  /** How the loop of `generate_tweet` ends. */
  lemma {:induction false} TweetLoopEnd(db: seq<MarkovNode>, rand: Draws, at: nat, path: seq<nat>, maxLength: int)
    requires WellFormed(db) && |path| > 0 && forall k :: 0 <= k < |path| ==> path[k] < |db|
    ensures LoopEnded(db, path, maxLength, TweetLoop(db, rand, at, path, maxLength))
    decreases maxLength - |path|
  {
    var cur := path[|path| - 1];
    if |path| < maxLength && db[cur].freqs != [] {
      var w := Successor(db, cur, rand(at)).value;
      var p := path + [w];
      if !(db[w].isLast || |p| >= maxLength) {
        TweetLoopGoesOn(db, rand, at, path, maxLength, w, p);
        TweetLoopEnd(db, rand, at + 1, p, maxLength);
        LoopEndedBack(db, path, p, maxLength, TweetLoop(db, rand, at + 1, p, maxLength));
      }
    }
  }

  /**
   * `generate_tweet` returns -1, or a word count from 2 to `maxLength`; the
   * words form a walk along recorded successors from the first word,
   * ending at the first sentence-ending word after it or at the cap, and
   * -1 means the cap was below 2 or the walk reached a word that never had
   * a successor.
   */
  lemma TweetProperties(db: seq<MarkovNode>, first: nat, rand: Draws, at: nat, maxLength: int)
    requires WellFormed(db) && first < |db|
    ensures var t := GenerateTweetSpec(db, first, rand, at, maxLength);
      && (t.words == -1 || 2 <= t.words <= maxLength)
      && t.path[0] == first && IsWalk(db, t.path) && OpenInside(db, t.path) && at <= t.at
      && (t.words > 0 ==> t.words == |t.path| && (db[t.path[|t.path| - 1]].isLast || t.words == maxLength))
      && (t.words == -1 ==> maxLength <= 1 || db[t.path[|t.path| - 1]].freqs == [])
  {
    TweetLoopWalk(db, rand, at, [first], maxLength);
    TweetLoopEnd(db, rand, at, [first], maxLength);
    TweetLoopExtends(db, rand, at, [first], maxLength);
    var t := GenerateTweetSpec(db, first, rand, at, maxLength);
    assert t.path[..1] == [first];
  }

  /** The text of a tweet: its words separated by single spaces. */
  function Render(db: seq<MarkovNode>, path: seq<nat>): string
    requires |path| > 0 && forall k :: 0 <= k < |path| ==> path[k] < |db|
  {
    if |path| == 1 then db[path[0]].word
    else Render(db, path[..|path| - 1]) + " " + db[path[|path| - 1]].word
  }

  // ---------------------------------------------------------------------
  // The chain object

  /** A `MarkovChain`: the database the operations update in place. */
  class Chain {
    var database: seq<MarkovNode>

    /** The empty chain `build_markov_chain` starts from. */
    constructor ()
      ensures database == []
    {
      database := [];
    }

    /** `get_node_from_database`: a walk along the list comparing words. */
    method GetNode(word: string) returns (r: Option<nat>)
      ensures r == Lookup(database, word)
    {
      var i := 0;
      while i < |database|
        invariant 0 <= i <= |database|
        invariant forall k :: 0 <= k < i ==> database[k].word != word
      {
        if database[i].word == word {
          return Some(i);
        }
        i := i + 1;
      }
      return None;
    }

    /**
     * `add_to_database`: the known word's record, or a new record appended
     * last; None when the allocation for a new record fails
     * (`allocOk` false), which leaves the database as it was.
     */
    method AddToDatabase(word: string, allocOk: bool) returns (r: Option<nat>)
      requires WellFormed(database) && word != []
      modifies this
      ensures WellFormed(database)
      ensures r.None? <==> Lookup(old(database), word).None? && !allocOk
      ensures database == if r.None? then old(database) else Added(old(database), word)
      ensures r.Some? ==> r == Lookup(database, word)
    {
      AddedProperties(database, word);
      var existing := GetNode(word);
      if existing.Some? {
        return existing;
      }
      if !allocOk {
        return None;
      }
      database := database + [NewNode(word)];
      r := Some(|database| - 1);
    }

    /**
     * `add_node_to_frequencies_list(first, second)`: the scan for an entry
     * of `second`, and its count and the total raised by one; otherwise a
     * new entry with count one. False when growing the list fails
     * (`allocOk` false), which leaves the record as it was.
     */
    method AddToFrequencies(first: nat, second: nat, allocOk: bool) returns (ok: bool)
      requires WellFormed(database) && first < |database| && second < |database|
      modifies this
      ensures WellFormed(database)
      ensures ok <==> allocOk || FindNext(old(database)[first].freqs, second).Some?
      ensures database == if ok then old(database)[first := Record(old(database)[first], second)] else old(database)
    {
      RecordKeepsWellFormed(database, first, second);
      var node := database[first];
      var i := 0;
      while i < |node.freqs|
        invariant 0 <= i <= |node.freqs|
        invariant forall k :: 0 <= k < i ==> node.freqs[k].next != second
      {
        if node.freqs[i].next == second {
          database := database[first := node.(freqs := node.freqs[i := Freq(second, node.freqs[i].count + 1)],
                                              total := node.total + 1)];
          return true;
        }
        i := i + 1;
      }
      if !allocOk {
        return false;
      }
      database := database[first := node.(freqs := node.freqs + [Freq(second, 1)], total := node.total + 1)];
      return true;
    }

    /**
     * `get_next_random_node` for record i: no draw and None for a word
     * without successors; otherwise one draw, reduced modulo the total, and
     * the scan of cumulative counts.
     */
    method GetNextRandom(i: nat, rand: Draws, at: nat) returns (r: Option<nat>, next: nat)
      requires WellFormed(database) && i < |database|
      ensures r == NextWord(database[i], rand(at))
      ensures next == if database[i].freqs == [] then at else at + 1
    {
      var node := database[i];
      if node.freqs == [] {
        return None, at;
      }
      var d := rand(at) % node.total;
      next := at + 1;
      var count := 0;
      var k := 0;
      assert node.freqs[..0] == [];
      while k < |node.freqs|
        invariant 0 <= k <= |node.freqs| && count == Before(node.freqs, k)
        invariant PickFrom(node.freqs, d, 0) == PickFrom(node.freqs, d, k)
      {
        assert node.freqs[..k + 1][..k] == node.freqs[..k];
        count := count + node.freqs[k].count;
        if d < count {
          return Some(node.freqs[k].next), next;
        }
        k := k + 1;
      }
      r := Some(node.freqs[0].next);
    }

    /**
     * `get_first_random_node`: None at once for an empty database; otherwise
     * up to MaxAttempts draws of a position, stopping at a word that does
     * not end a sentence.
     */
    method GetFirstRandom(rand: Draws, at: nat) returns (r: Option<nat>, next: nat)
      ensures (r, next) == FirstRandom(database, rand, at)
    {
      var db := database;
      if |db| == 0 {
        return None, at;
      }
      ghost var goal := FirstTry(db, rand, at, MaxAttempts);
      var attempts := MaxAttempts;
      next := at;
      while attempts > 0
        invariant FirstTry(db, rand, next, attempts) == goal
      {
        var index := Slot(rand(next), |db|);
        ghost var before := next;
        next := next + 1;
        attempts := attempts - 1;
        if !db[index].isLast {
          assert goal == (Some(index), next);
          return Some(index), next;
        }
        FirstTryMiss(db, rand, before, attempts + 1);
      }
      r := None;
    }

    /**
     * `generate_tweet` from record `first`: the word count it returns, what
     * it writes to `out` (the tweet and a newline, or nothing), and the next
     * unused draw. A word is at most 98 characters long, so that " " + word
     * fits the 100-byte `temp` buffer.
     */
    method GenerateTweet(first: nat, rand: Draws, at: nat, maxLength: int) returns (words: int, output: string, next: nat)
      requires WellFormed(database) && first < |database|
      requires forall i :: 0 <= i < |database| ==> |database[i].word| <= 98
      ensures var t := GenerateTweetSpec(database, first, rand, at, maxLength);
        words == t.words && next == t.at && output == if words > 0 then Render(database, t.path) + "\n" else ""
    {
      words := 1;
      var current := first;
      var tweet := database[first].word;
      next := at;
      ghost var path: seq<nat> := [first];
      while words < maxLength
        invariant 1 <= words == |path| && path[|path| - 1] == current
        invariant forall k :: 0 <= k < |path| ==> path[k] < |database|
        invariant tweet == Render(database, path)
        invariant TweetLoop(database, rand, next, path, maxLength) == GenerateTweetSpec(database, first, rand, at, maxLength)
        decreases maxLength - words
      {
        NextWordInRange(database[current], |database|, rand(next));
        var w, n := GetNextRandom(current, rand, next);
        if w.None? {
          break;
        }
        ghost var p := path + [w.value];
        assert p[..|p| - 1] == path;
        tweet := tweet + " " + database[w.value].word;
        words := words + 1;
        current := w.value;
        path := p;
        next := n;
        // `words` is at least 2 here, so a sentence-ending word always ends the tweet.
        if database[current].isLast {
          output := tweet + "\n";
          return;
        }
        if words >= maxLength {
          output := tweet + "\n";
          return;
        }
      }
      words := -1;
      output := "";
    }
  }
}
