/**
 * The word list of the crossword solver and its two indexes: the words of
 * each length, and the "database" that finds every word with a given letter at
 * a given position among the words of a given length.
 */
module CrosswordWords {

  /** The letters for which the database creates buckets: 'a' to 'z' and the apostrophe. */
  const Alphabet: seq<char> := "abcdefghijklmnopqrstuvwxyz'"

  /** The characters of the alphabet: a lower-case letter or the apostrophe. */
  predicate IsLetter(c: char)
  {
    'a' <= c <= 'z' || c == '\''
  }

  lemma AlphabetLetters()
    ensures forall c :: c in Alphabet <==> IsLetter(c)
  {
    forall c | IsLetter(c) ensures c in Alphabet {
      if c != '\'' {
        assert Alphabet[c as int - 'a' as int] == c;
      }
    }
  }

  /** Every letter of w has a bucket; any other character makes the database raise KeyError. */
  predicate OverAlphabet(w: string)
  {
    forall k :: 0 <= k < |w| ==> IsLetter(w[k])
  }

  predicate AllOverAlphabet(words: seq<string>)
  {
    forall i :: 0 <= i < |words| ==> OverAlphabet(words[i])
  }

  /** db[length][position][letter] is a set of indexes into the word list. */
  type WordsDatabase = map<nat, map<nat, map<char, set<nat>>>>

  /** Lengths of the first n words: the lengths a database built from them has. */
  ghost predicate HasLength(words: seq<string>, n: nat, L: nat)
    requires n <= |words|
  {
    exists k :: 0 <= k < n && |words[k]| == L
  }

  /** The buckets for one length L: positions 0 .. L-1, and under each one a bucket per alphabet letter. */
  ghost predicate Bucketed(m: map<nat, map<char, set<nat>>>, L: nat)
  {
    (forall j :: j in m <==> 0 <= j < L)
    && forall j :: j in m ==> forall c :: c in m[j] <==> IsLetter(c)
  }

  /**
   * db indexes the first n words: it has a length key for every length among
   * them and no other, every length has the full set of buckets, and bucket
   * db[L][j][c] holds exactly the indexes of the words of length L with letter c
   * at position j.
   */
  ghost predicate IndexesPrefix(db: WordsDatabase, words: seq<string>, n: nat)
    requires n <= |words|
  {
    (forall k :: 0 <= k < n ==> |words[k]| in db)
    && (forall L :: L in db ==> HasLength(words, n, L) && Bucketed(db[L], L))
    && (forall L, j, c :: L in db && j in db[L] && c in db[L][j] ==>
          forall x :: x in db[L][j][c] <==> 0 <= x < n && |words[x]| == L && j < L && words[x][j] == c)
  }

  ghost predicate Indexes(db: WordsDatabase, words: seq<string>)
  {
    IndexesPrefix(db, words, |words|)
  }

  /** split_words_by_length: the indexes of the words of each length that occurs. */
  method SplitWordsByLength(words: seq<string>) returns (byLength: map<nat, set<nat>>)
    ensures forall i :: 0 <= i < |words| ==> |words[i]| in byLength
    ensures forall L :: L in byLength ==> byLength[L] != {}
    ensures forall L :: L in byLength ==> forall x :: x in byLength[L] <==> 0 <= x < |words| && |words[x]| == L
  {
    byLength := map[];
    var i := 0;
    while i < |words|
      invariant i <= |words|
      invariant forall k :: 0 <= k < i ==> |words[k]| in byLength
      invariant forall L :: L in byLength ==> byLength[L] != {}
      invariant forall L :: L in byLength ==> forall x :: x in byLength[L] <==> 0 <= x < i && |words[x]| == L
    {
      var length := |words[i]|;
      if length !in byLength {
        byLength := byLength[length := {}];
      }
      byLength := byLength[length := byLength[length] + {i}];
      i := i + 1;
    }
  }

  /** One empty bucket per alphabet letter. */
  function LetterBuckets(): (m: map<char, set<nat>>)
    ensures forall c :: c in m <==> IsLetter(c)
    ensures forall c :: c in m ==> m[c] == {}
  {
    AlphabetLetters();
    map c | c in Alphabet :: {}
  }

  /** The buckets created for a length seen for the first time: every one empty. */
  function EmptyBuckets(length: nat): (m: map<nat, map<char, set<nat>>>)
    ensures Bucketed(m, length)
    ensures forall j, c :: j in m && c in m[j] ==> m[j][c] == {}
  {
    if length == 0 then map[] else EmptyBuckets(length - 1)[length - 1 := LetterBuckets()]
  }

  /** The first i words are indexed, and of word i its first j letters. */
  ghost predicate Filling(db: WordsDatabase, words: seq<string>, i: nat, j: nat)
    requires i < |words| && j <= |words[i]|
  {
    (forall k :: 0 <= k <= i ==> |words[k]| in db)
    && (forall L :: L in db ==> HasLength(words, i + 1, L) && Bucketed(db[L], L))
    && (forall L, p, c :: L in db && p in db[L] && c in db[L][p] ==>
          forall x :: x in db[L][p][c] <==>
            (0 <= x < i && |words[x]| == L && p < L && words[x][p] == c)
            || (x == i && L == |words[i]| && p < j && words[i][p] == c))
  }

  lemma StartFilling(db: WordsDatabase, db': WordsDatabase, words: seq<string>, i: nat)
    requires i < |words| && IndexesPrefix(db, words, i)
    requires db' == if |words[i]| in db then db else db[|words[i]| := EmptyBuckets(|words[i]|)]
    ensures Filling(db', words, i, 0)
  {
    var L0 := |words[i]|;
    assert HasLength(words, i + 1, L0);
    forall L | L in db
      ensures HasLength(words, i + 1, L)
    {
      var k :| 0 <= k < i && |words[k]| == L;
    }
    if L0 !in db {
      forall L, p, c | L in db' && p in db'[L] && c in db'[L][p]
        ensures forall x :: x in db'[L][p][c] <==> 0 <= x < i && |words[x]| == L && p < L && words[x][p] == c
      {
        if L == L0 {
          assert db'[L][p][c] == {};
          forall x | 0 <= x < i ensures |words[x]| != L {
            assert |words[x]| in db;
          }
        }
      }
    }
  }

  lemma FillLetter(db: WordsDatabase, db': WordsDatabase, words: seq<string>, i: nat, j: nat)
    requires i < |words| && j < |words[i]| && OverAlphabet(words[i])
    requires Filling(db, words, i, j)
    requires |words[i]| in db && db' == Insert(db, |words[i]|, j, words[i][j], i)
    ensures Filling(db', words, i, j + 1)
  {
    var L0 := |words[i]|;
    InsertShape(db, L0, j, words[i][j], i);
    forall L | L in db'
      ensures HasLength(words, i + 1, L) && Bucketed(db'[L], L)
    {
    }
    forall L, p, c | L in db' && p in db'[L] && c in db'[L][p]
      ensures forall x :: x in db'[L][p][c] <==>
            (0 <= x < i && |words[x]| == L && p < L && words[x][p] == c)
            || (x == i && L == L0 && p < j + 1 && words[i][p] == c)
    {
      InsertBucket(db, L0, j, words[i][j], i, L, p, c);
      FillBucket(words, i, j, L, p, c, db[L][p][c], db'[L][p][c]);
    }
  }

  /** Bucket [L][p][c] after letter j of word i was indexed: it gains i exactly when that letter is c at position p. */
  lemma FillBucket(words: seq<string>, i: nat, j: nat, L: nat, p: nat, c: char, before: set<nat>, after: set<nat>)
    requires i < |words| && j < |words[i]|
    requires forall x :: x in before <==>
      (0 <= x < i && |words[x]| == L && p < L && words[x][p] == c)
      || (x == i && L == |words[i]| && p < j && words[i][p] == c)
    requires after == if L == |words[i]| && p == j && c == words[i][j] then before + {i} else before
    ensures forall x :: x in after <==>
      (0 <= x < i && |words[x]| == L && p < L && words[x][p] == c)
      || (x == i && L == |words[i]| && p < j + 1 && words[i][p] == c)
  {
  }

  /** Insert keeps every key of the database and the buckets of every length. */
  lemma InsertShape(db: WordsDatabase, L0: nat, j: nat, c0: char, x: nat)
    requires L0 in db && j in db[L0] && c0 in db[L0][j]
    ensures Insert(db, L0, j, c0, x).Keys == db.Keys
    ensures forall L :: L in db ==> Bucketed(db[L], L) ==> Bucketed(Insert(db, L0, j, c0, x)[L], L)
  {
    var db' := Insert(db, L0, j, c0, x);
    forall L | L in db && Bucketed(db[L], L)
      ensures Bucketed(db'[L], L)
    {
      if L == L0 {
        assert db'[L].Keys == db[L].Keys;
        assert forall p :: p in db[L] ==> db'[L][p].Keys == db[L][p].Keys;
      }
    }
  }

  /** Insert adds x to bucket [L0][j][c0] and changes no other bucket. */
  lemma InsertBucket(db: WordsDatabase, L0: nat, j: nat, c0: char, x: nat, L: nat, p: nat, c: char)
    requires L0 in db && j in db[L0] && c0 in db[L0][j]
    requires L in db && p in db[L] && c in db[L][p]
    ensures var db' := Insert(db, L0, j, c0, x);
      L in db' && p in db'[L] && c in db'[L][p]
      && db'[L][p][c] == if L == L0 && p == j && c == c0 then db[L][p][c] + {x} else db[L][p][c]
  {
  }

  lemma FinishFilling(db: WordsDatabase, words: seq<string>, i: nat)
    requires i < |words| && Filling(db, words, i, |words[i]|)
    ensures IndexesPrefix(db, words, i + 1)
  {
  }

  /** db with index x added to bucket db[L][j][c]. */
  function Insert(db: WordsDatabase, L: nat, j: nat, c: char, x: nat): WordsDatabase
    requires L in db && j in db[L] && c in db[L][j]
  {
    var bucketsOfLength: map<nat, map<char, set<nat>>> := db[L];
    var bucketsAtPosition: map<char, set<nat>> := bucketsOfLength[j];
    db[L := bucketsOfLength[j := bucketsAtPosition[c := bucketsAtPosition[c] + {x}]]]
  }

  /**
   * create_word_database: for every word, create the buckets of its length if
   * that length is new, then add the word's index to the bucket of each of its
   * letters at that letter's position.
   */
  method CreateWordDatabase(words: seq<string>) returns (db: WordsDatabase)
    requires AllOverAlphabet(words)
    ensures Indexes(db, words)
  {
    db := map[];
    var i: nat := 0;
    while i < |words|
      invariant i <= |words| && IndexesPrefix(db, words, i)
    {
      db := IndexWord(db, words, i);
      i := i + 1;
    }
  }

  /** One pass of create_word_database's outer loop: word i joins a database of the words before it. */
  method IndexWord(db: WordsDatabase, words: seq<string>, i: nat) returns (db': WordsDatabase)
    requires i < |words| && OverAlphabet(words[i]) && IndexesPrefix(db, words, i)
    ensures IndexesPrefix(db', words, i + 1)
  {
    var word := words[i];
    var length := |word|;
    db' := db;
    if length !in db' {
      db' := db'[length := EmptyBuckets(length)];
    }
    StartFilling(db, db', words, i);
    var j := 0;
    while j < length
      invariant j <= length && Filling(db', words, i, j)
    {
      ghost var db0 := db';
      assert length in db' && j in db'[length] && word[j] in db'[length][j];
      var bucketsOfLength: map<nat, map<char, set<nat>>> := db'[length];
      var bucketsAtPosition: map<char, set<nat>> := bucketsOfLength[j];
      db' := db'[length := bucketsOfLength[j := bucketsAtPosition[word[j] := bucketsAtPosition[word[j]] + {i}]]];
      FillLetter(db0, db', words, i, j);
      j := j + 1;
    }
    FinishFilling(db', words, i);
  }

  /**
   * Reading the database: among a set D of words of length L, those in bucket
   * db[L][j][c] are exactly the ones with letter c at position j.
   */
  lemma LookupBucket(db: WordsDatabase, words: seq<string>, L: nat, j: nat, c: char, D: set<nat>)
    requires Indexes(db, words) && L in db && j < L && IsLetter(c)
    requires forall v :: v in D ==> v < |words| && |words[v]| == L
    ensures j in db[L] && c in db[L][j]
    ensures forall v :: v in db[L][j][c] * D <==> v in D && words[v][j] == c
  {
  }
}
