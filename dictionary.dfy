/** Dictionary enrichment (backend/app/dictionary.py): conversion of raw JMdict
    entries into `DictionaryEntry` records, and the per-token lookup loop.
    The JMdict database (jamdict) is a parameter: a function from a query term
    to the raw entries it returns, in database order. */
module Dictionary {
  import opened Records
  import opened Sequences

  /** One gloss of a sense; `lang` is absent when the database gives none. */
  datatype Gloss = Gloss(text: string, lang: Option<string>)

  /** One sense: its glosses and its part-of-speech tags, both in database order. */
  datatype Sense = Sense(glosses: seq<Gloss>, pos: seq<string>)

  /** One raw JMdict entry. */
  datatype RawEntry = RawEntry(kanjiForms: seq<string>, kanaForms: seq<string>, senses: seq<Sense>)

  const MaxMeanings: nat := 5
  const MaxTags: nat := 3
  const MaxEntriesPerToken: nat := 3

  /** Coarse tags of tokens that are never looked up: particle, punctuation,
      symbol and whitespace. */
  const GrammarTags: set<string> := {"助詞", "補助記号", "記号", "空白"}

  /** English or unspecified language. */
  predicate IsEnglish(lang: Option<string>) {
    lang == None || lang == Some("eng") || lang == Some("en")
  }

  /** The written form reported for an entry. */
  function Headword(query: string, e: RawEntry): (word: string)
    ensures word in e.kanjiForms + e.kanaForms + [query]
    ensures e.kanjiForms != [] ==> word == e.kanjiForms[0]
    ensures e.kanjiForms == [] && e.kanaForms != [] ==> word == e.kanaForms[0]
    ensures e.kanjiForms == [] && e.kanaForms == [] ==> word == query
  {
    if e.kanjiForms != [] then e.kanjiForms[0]
    else if e.kanaForms != [] then e.kanaForms[0]
    else query
  }

  /** The reading reported for an entry: its first kana form, or "". */
  function FirstKana(e: RawEntry): (reading: string)
    ensures e.kanaForms != [] ==> reading == e.kanaForms[0]
    ensures e.kanaForms == [] ==> reading == ""
  {
    if e.kanaForms != [] then e.kanaForms[0] else ""
  }

  /** The strict reading filter: a missing or empty reading admits every entry,
      any other reading only entries listing exactly that kana form. */
  predicate Admits(reading: Option<string>, kanaForms: seq<string>) {
    reading == None || reading.value == "" || reading.value in kanaForms
  }

  /** Texts of the English (or untagged) glosses, in order. */
  function EnglishGlosses(glosses: seq<Gloss>): (texts: seq<string>)
    ensures |texts| <= |glosses|
  {
    if glosses == [] then []
    else
      var g := glosses[|glosses| - 1];
      EnglishGlosses(glosses[..|glosses| - 1]) + (if IsEnglish(g.lang) then [g.text] else [])
  }

  /** All English gloss texts of an entry, sense after sense. */
  function Meanings(senses: seq<Sense>): seq<string> {
    if senses == [] then []
    else Meanings(senses[..|senses| - 1]) + EnglishGlosses(senses[|senses| - 1].glosses)
  }

  /** Appends each tag not yet present, in order. */
  function AddNew(acc: seq<string>, tags: seq<string>): (r: seq<string>)
    ensures acc <= r
    ensures NoDup(acc) ==> NoDup(r)
    ensures forall x :: x in r <==> x in acc || x in tags
  {
    if tags == [] then acc
    else
      var a := AddNew(acc, tags[..|tags| - 1]);
      var x := tags[|tags| - 1];
      assert tags == tags[..|tags| - 1] + [x];
      if x in a then a else a + [x]
  }

  /** Every part-of-speech tag of every sense, duplicates included. */
  function AllTags(senses: seq<Sense>): seq<string> {
    if senses == [] then [] else AllTags(senses[..|senses| - 1]) + senses[|senses| - 1].pos
  }

  /** Part-of-speech tags of an entry, deduplicated across senses. */
  function PosTags(senses: seq<Sense>): (tags: seq<string>)
    ensures NoDup(tags)
    ensures forall x :: x in tags <==> x in AllTags(senses)
  {
    if senses == [] then [] else AddNew(PosTags(senses[..|senses| - 1]), senses[|senses| - 1].pos)
  }

  /** The record reported for a raw entry that passed the filters. */
  function ToEntry(query: string, e: RawEntry): (d: DictionaryEntry)
    ensures d.word == Headword(query, e) && d.reading == FirstKana(e)
    ensures d.meanings <= Meanings(e.senses)
    ensures |d.meanings| == if |Meanings(e.senses)| < MaxMeanings then |Meanings(e.senses)| else MaxMeanings
    ensures d.partOfSpeech <= PosTags(e.senses) && NoDup(d.partOfSpeech)
    ensures |d.partOfSpeech| == if |PosTags(e.senses)| < MaxTags then |PosTags(e.senses)| else MaxTags
  {
    DictionaryEntry(Headword(query, e), FirstKana(e),
      Take(Meanings(e.senses), MaxMeanings), Take(PosTags(e.senses), MaxTags))
  }

  /** An entry survives when the reading filter admits it and it has an English gloss. */
  predicate Keeps(reading: Option<string>, e: RawEntry) {
    Admits(reading, e.kanaForms) && Meanings(e.senses) != []
  }

  /** The raw entries that survive, in database order. */
  function Kept(reading: Option<string>, raws: seq<RawEntry>): seq<RawEntry> {
    if raws == [] then []
    else
      var e := raws[|raws| - 1];
      Kept(reading, raws[..|raws| - 1]) + (if Keeps(reading, e) then [e] else [])
  }

  /** What `lookup_word` returns for the raw entries the database gave. */
  function LookupSpec(query: string, reading: Option<string>, raws: seq<RawEntry>): (entries: seq<DictionaryEntry>)
    ensures |entries| <= |raws|
    ensures forall d :: d in entries ==>
      1 <= |d.meanings| <= MaxMeanings && |d.partOfSpeech| <= MaxTags && NoDup(d.partOfSpeech)
  {
    if raws == [] then []
    else
      var e := raws[|raws| - 1];
      LookupSpec(query, reading, raws[..|raws| - 1]) + (if Keeps(reading, e) then [ToEntry(query, e)] else [])
  }

  // ---------------------------------------------------------------------
  // Properties of the specification

  /** The converted entries are exactly the surviving raw entries, converted one to one. */
  lemma {:induction false} LookupSpecIsConvertedKept(query: string, reading: Option<string>, raws: seq<RawEntry>)
    ensures |LookupSpec(query, reading, raws)| == |Kept(reading, raws)|
    ensures forall i :: 0 <= i < |Kept(reading, raws)| ==>
      LookupSpec(query, reading, raws)[i] == ToEntry(query, Kept(reading, raws)[i])
  {
    if raws != [] {
      LookupSpecIsConvertedKept(query, reading, raws[..|raws| - 1]);
    }
  }

  /** A raw entry survives exactly when the reading filter admits it and it has an English gloss. */
  lemma {:induction false} KeptMembership(reading: Option<string>, raws: seq<RawEntry>)
    ensures forall e :: e in Kept(reading, raws) <==> e in raws && Keeps(reading, e)
  {
    if raws != [] {
      var init, e := raws[..|raws| - 1], raws[|raws| - 1];
      KeptMembership(reading, init);
      assert raws == init + [e];
    }
  }

  /** Surviving entries keep the database's order. */
  lemma {:induction false} KeptInDatabaseOrder(reading: Option<string>, raws: seq<RawEntry>)
    ensures IsSubsequence(Kept(reading, raws), raws)
  {
    if raws == [] {
      SubsequenceOfEmptyAndSelf(raws);
    } else {
      var init, e := raws[..|raws| - 1], raws[|raws| - 1];
      KeptInDatabaseOrder(reading, init);
      assert raws == init + [e];
      if Keeps(reading, e) {
        SubsequenceExtendBoth(Kept(reading, init), init, e);
      } else {
        assert Kept(reading, raws) == Kept(reading, init);
        SubsequenceExtendRight(Kept(reading, init), init, e);
      }
    }
  }

  /** With a non-empty reading, an entry survives only if that exact string is
      one of its kana forms; no kana normalisation is applied. */
  lemma StrictReadingFilter(reading: string, raws: seq<RawEntry>)
    requires reading != ""
    ensures forall e :: e in Kept(Some(reading), raws) ==> reading in e.kanaForms
    ensures forall e :: e in raws && reading !in e.kanaForms ==> e !in Kept(Some(reading), raws)
  {
    KeptMembership(Some(reading), raws);
  }

  /** An empty reading filters nothing out. */
  lemma {:induction false} EmptyReadingFiltersNothing(query: string, raws: seq<RawEntry>)
    ensures LookupSpec(query, Some(""), raws) == LookupSpec(query, None, raws)
  {
    if raws != [] {
      EmptyReadingFiltersNothing(query, raws[..|raws| - 1]);
    }
  }

  /** The reading filter only removes entries: it never alters the entries it
      keeps, in particular not their reported reading. */
  lemma {:induction false} ReadingFilterOnlyRemoves(query: string, reading: Option<string>, raws: seq<RawEntry>)
    ensures IsSubsequence(LookupSpec(query, reading, raws), LookupSpec(query, None, raws))
  {
    if raws == [] {
      SubsequenceOfEmptyAndSelf(LookupSpec(query, None, raws));
    } else {
      var init, e := raws[..|raws| - 1], raws[|raws| - 1];
      ReadingFilterOnlyRemoves(query, reading, init);
      var filtered, unfiltered := LookupSpec(query, reading, init), LookupSpec(query, None, init);
      var d := ToEntry(query, e);
      if Keeps(reading, e) {
        assert LookupSpec(query, reading, raws) == filtered + [d];
        assert LookupSpec(query, None, raws) == unfiltered + [d];
        SubsequenceExtendBoth(filtered, unfiltered, d);
      } else if Keeps(None, e) {
        assert LookupSpec(query, reading, raws) == filtered;
        assert LookupSpec(query, None, raws) == unfiltered + [d];
        SubsequenceExtendRight(filtered, unfiltered, d);
      } else {
        assert LookupSpec(query, reading, raws) == filtered;
        assert LookupSpec(query, None, raws) == unfiltered;
      }
    }
  }

  /** No English glosses exactly when no gloss is English. */
  lemma {:induction false} EnglishGlossesEmpty(glosses: seq<Gloss>)
    ensures EnglishGlosses(glosses) == [] <==> forall l :: 0 <= l < |glosses| ==> !IsEnglish(glosses[l].lang)
  {
    if glosses != [] {
      EnglishGlossesEmpty(glosses[..|glosses| - 1]);
    }
  }

  /** An entry has no meanings exactly when none of its glosses, in any sense,
      is English or untagged; such an entry is never returned. */
  lemma {:induction false} MeaningsEmpty(senses: seq<Sense>)
    ensures Meanings(senses) == [] <==>
      forall k, l :: 0 <= k < |senses| && 0 <= l < |senses[k].glosses| ==> !IsEnglish(senses[k].glosses[l].lang)
  {
    if senses != [] {
      var init, last := senses[..|senses| - 1], senses[|senses| - 1];
      MeaningsEmpty(init);
      EnglishGlossesEmpty(last.glosses);
      assert forall k :: 0 <= k < |init| ==> senses[k] == init[k];
    }
  }

  /** Every gloss of every sense, in sense-then-gloss order. */
  function AllGlosses(senses: seq<Sense>): seq<Gloss> {
    if senses == [] then [] else AllGlosses(senses[..|senses| - 1]) + senses[|senses| - 1].glosses
  }

  lemma {:induction false} EnglishGlossesAppend(a: seq<Gloss>, b: seq<Gloss>)
    ensures EnglishGlosses(a + b) == EnglishGlosses(a) + EnglishGlosses(b)
    decreases |b|
  {
    if b == [] {
      assert a + b == a;
    } else {
      var b' := b[..|b| - 1];
      assert (a + b)[..|a + b| - 1] == a + b';
      EnglishGlossesAppend(a, b');
    }
  }

  /** The meanings of an entry are exactly the English or untagged glosses of
      all its senses, filtered in sense-then-gloss order, duplicates kept. */
  lemma {:induction false} MeaningsFilterAllGlosses(senses: seq<Sense>)
    ensures Meanings(senses) == EnglishGlosses(AllGlosses(senses))
  {
    if senses != [] {
      var init, last := senses[..|senses| - 1], senses[|senses| - 1];
      MeaningsFilterAllGlosses(init);
      EnglishGlossesAppend(AllGlosses(init), last.glosses);
    }
  }

  /** A text is collected from a gloss list exactly when some English or
      untagged gloss carries it. */
  lemma {:induction false} EnglishGlossesMembership(glosses: seq<Gloss>)
    ensures forall x :: x in EnglishGlosses(glosses) <==>
      exists l :: 0 <= l < |glosses| && IsEnglish(glosses[l].lang) && glosses[l].text == x
  {
    if glosses != [] {
      var init, g := glosses[..|glosses| - 1], glosses[|glosses| - 1];
      EnglishGlossesMembership(init);
      forall x | x in EnglishGlosses(glosses)
        ensures exists l :: 0 <= l < |glosses| && IsEnglish(glosses[l].lang) && glosses[l].text == x
      {
        if x in EnglishGlosses(init) {
          var l :| 0 <= l < |init| && IsEnglish(init[l].lang) && init[l].text == x;
          assert glosses[l] == init[l];
        } else {
          assert glosses[|glosses| - 1] == g;
        }
      }
      forall x, l | 0 <= l < |glosses| && IsEnglish(glosses[l].lang) && glosses[l].text == x
        ensures x in EnglishGlosses(glosses)
      {
        if l < |init| {
          assert init[l] == glosses[l];
        }
      }
    }
  }

  /** A text is among an entry's meanings exactly when some English or
      untagged gloss of some sense carries it. */
  lemma {:induction false} MeaningsMembership(senses: seq<Sense>)
    ensures forall x :: x in Meanings(senses) <==>
      exists k, l :: 0 <= k < |senses| && 0 <= l < |senses[k].glosses| &&
        IsEnglish(senses[k].glosses[l].lang) && senses[k].glosses[l].text == x
  {
    if senses != [] {
      var init, last := senses[..|senses| - 1], senses[|senses| - 1];
      MeaningsMembership(init);
      EnglishGlossesMembership(last.glosses);
      forall x | x in Meanings(senses)
        ensures exists k, l ::
                  0 <= k < |senses| && 0 <= l < |senses[k].glosses| &&
                  IsEnglish(senses[k].glosses[l].lang) && senses[k].glosses[l].text == x
      {
        if x in Meanings(init) {
          var k, l :| 0 <= k < |init| && 0 <= l < |init[k].glosses| &&
            IsEnglish(init[k].glosses[l].lang) && init[k].glosses[l].text == x;
          assert senses[k] == init[k];
        } else {
          var l :| 0 <= l < |last.glosses| && IsEnglish(last.glosses[l].lang) && last.glosses[l].text == x;
          assert senses[|senses| - 1] == last;
        }
      }
      forall x, k, l | 0 <= k < |senses| && 0 <= l < |senses[k].glosses| &&
          IsEnglish(senses[k].glosses[l].lang) && senses[k].glosses[l].text == x
        ensures x in Meanings(senses)
      {
        if k < |init| {
          assert init[k] == senses[k];
        }
      }
    }
  }

  lemma {:induction false} AddNewAppend(acc: seq<string>, a: seq<string>, b: seq<string>)
    ensures AddNew(acc, a + b) == AddNew(AddNew(acc, a), b)
    decreases |b|
  {
    if b == [] {
      assert a + b == a;
    } else {
      var b', x := b[..|b| - 1], b[|b| - 1];
      assert (a + b)[..|a + b| - 1] == a + b';
      AddNewAppend(acc, a, b');
    }
  }

  /** The entry's tags are the order-preserving deduplication of all its tags. */
  lemma {:induction false} PosTagsIsDedup(senses: seq<Sense>)
    ensures PosTags(senses) == AddNew([], AllTags(senses))
  {
    if senses != [] {
      var init, last := senses[..|senses| - 1], senses[|senses| - 1];
      PosTagsIsDedup(init);
      AddNewAppend([], AllTags(init), last.pos);
    }
  }

  lemma {:induction false} FirstIndexOfPrefix(s: seq<string>, x: string, y: string)
    requires y in s
    ensures FirstIndex(s + [x], y) == FirstIndex(s, y)
  {
    if s[0] != y {
      assert (s + [x])[1..] == s[1..] + [x];
      FirstIndexOfPrefix(s[1..], x, y);
    }
  }

  /** Deduplication keeps tags in the order in which they are first seen. */
  lemma {:induction false} DedupFirstSeenOrder(s: seq<string>)
    ensures forall i, j :: 0 <= i < j < |AddNew([], s)| ==>
      FirstIndex(s, AddNew([], s)[i]) < FirstIndex(s, AddNew([], s)[j])
  {
    if s != [] {
      var init, x := s[..|s| - 1], s[|s| - 1];
      DedupFirstSeenOrder(init);
      assert s == init + [x];
      var r' := AddNew([], init);
      forall y | y in r' ensures FirstIndex(s, y) == FirstIndex(init, y) < |init| {
        FirstIndexOfPrefix(init, x, y);
      }
    }
  }

  /** The part-of-speech list of an entry: no duplicates, every tag of every
      sense, in first-seen order. */
  lemma PosTagsFirstSeenOrder(senses: seq<Sense>)
    ensures NoDup(PosTags(senses))
    ensures forall x :: x in PosTags(senses) <==> x in AllTags(senses)
    ensures forall i, j :: 0 <= i < j < |PosTags(senses)| ==>
      FirstIndex(AllTags(senses), PosTags(senses)[i]) < FirstIndex(AllTags(senses), PosTags(senses)[j])
  {
    PosTagsIsDedup(senses);
    DedupFirstSeenOrder(AllTags(senses));
  }

  // ---------------------------------------------------------------------
  // lookup_word

  /** `lookup_word`: query the database and convert its entries, skipping
      entries the reading filter rejects and entries without English glosses. */
  method LookupWord(jam: string -> seq<RawEntry>, word: string, reading: Option<string>)
    returns (entries: seq<DictionaryEntry>)
    ensures entries == LookupSpec(word, reading, jam(word))
  {
    var raws := jam(word);
    entries := [];
    var i := 0;
    while i < |raws|
      invariant 0 <= i <= |raws|
      invariant entries == LookupSpec(word, reading, raws[..i])
    {
      var entry := raws[i];
      ghost var done := raws[..i];
      assert raws[..i + 1] == done + [entry];
      assert (done + [entry])[..|done|] == done;
      ghost var expected := if Keeps(reading, entry) then [ToEntry(word, entry)] else [];
      assert LookupSpec(word, reading, raws[..i + 1]) == entries + expected;
      i := i + 1;
      var kanjiForms, kanaForms := entry.kanjiForms, entry.kanaForms;
      var entryWord := if kanjiForms != [] then kanjiForms[0] else if kanaForms != [] then kanaForms[0] else word;
      var entryReading := if kanaForms != [] then kanaForms[0] else "";
      if reading.Some? && reading.value != "" && reading.value !in kanaForms {
        assert expected == [];
        continue;
      }
      var meanings, posTags := CollectSenses(entry.senses);
      if meanings != [] {
        assert entryWord == Headword(word, entry) && entryReading == FirstKana(entry);
        assert expected == [DictionaryEntry(entryWord, entryReading, Take(meanings, MaxMeanings), Take(posTags, MaxTags))];
        entries := entries + [DictionaryEntry(entryWord, entryReading, Take(meanings, MaxMeanings), Take(posTags, MaxTags))];
      } else {
        assert expected == [];
        assert entries + expected == entries;
      }
    }
    assert raws[..i] == raws;
  }

  /** The sense loop of `lookup_word`: gather English gloss texts and the
      part-of-speech tags not seen before. */
  method CollectSenses(senses: seq<Sense>) returns (meanings: seq<string>, posTags: seq<string>)
    ensures meanings == Meanings(senses)
    ensures posTags == PosTags(senses)
  {
    meanings, posTags := [], [];
    var j := 0;
    while j < |senses|
      invariant 0 <= j <= |senses|
      invariant meanings == Meanings(senses[..j])
      invariant posTags == PosTags(senses[..j])
    {
      var sense := senses[j];
      assert senses[..j + 1][..j] == senses[..j];
      var k := 0;
      while k < |sense.glosses|
        invariant 0 <= k <= |sense.glosses|
        invariant meanings == Meanings(senses[..j]) + EnglishGlosses(sense.glosses[..k])
      {
        var gloss := sense.glosses[k];
        assert sense.glosses[..k + 1][..k] == sense.glosses[..k];
        if IsEnglish(gloss.lang) {
          meanings := meanings + [gloss.text];
        }
        k := k + 1;
      }
      assert sense.glosses[..k] == sense.glosses;
      var m := 0;
      while m < |sense.pos|
        invariant 0 <= m <= |sense.pos|
        invariant posTags == AddNew(PosTags(senses[..j]), sense.pos[..m])
      {
        var pos := sense.pos[m];
        assert sense.pos[..m + 1][..m] == sense.pos[..m];
        if pos !in posTags {
          posTags := posTags + [pos];
        }
        m := m + 1;
      }
      assert sense.pos[..m] == sense.pos;
      j := j + 1;
    }
    assert senses[..j] == senses;
  }

  // ---------------------------------------------------------------------
  // lookup_tokens

  /** The token dictionary that `lookup_tokens` enriches in place. Each field
      is `None` when the dictionary lacks that key. */
  class Token {
    var surface: Option<string>
    var baseForm: Option<string>
    var reading: Option<string>
    var pos: Option<string>
    var posEnglish: Option<string>
    var dictionaryEntries: Option<seq<DictionaryEntry>>

    constructor (surface: Option<string>, baseForm: Option<string>, reading: Option<string>,
                 pos: Option<string>, posEnglish: Option<string>)
      ensures this.surface == surface && this.baseForm == baseForm && this.reading == reading
      ensures this.pos == pos && this.posEnglish == posEnglish
      ensures dictionaryEntries == None
    {
      this.surface := surface;
      this.baseForm := baseForm;
      this.reading := reading;
      this.pos := pos;
      this.posEnglish := posEnglish;
      dictionaryEntries := None;
    }
  }

  /** The lookup key of a token: its base form, else its surface, else "". */
  function LookupKey(baseForm: Option<string>, surface: Option<string>): (key: string)
    ensures baseForm.Some? ==> key == baseForm.value
    ensures baseForm == None && surface.Some? ==> key == surface.value
    ensures baseForm == None && surface == None ==> key == ""
  {
    match baseForm
    case Some(b) => b
    case None => match surface
      case Some(s) => s
      case None => ""
  }

  /** A token is a grammar word when its part of speech (missing counts as "")
      is one of the grammar tags. */
  predicate IsGrammarWord(pos: Option<string>) {
    pos.Some? && pos.value in GrammarTags
  }

  /** The entries `lookup_tokens` stores for a token with these fields. */
  function TokenEntries(jam: string -> seq<RawEntry>, baseForm: Option<string>, surface: Option<string>,
                        pos: Option<string>): (entries: seq<DictionaryEntry>)
    ensures IsGrammarWord(pos) ==> entries == []
    ensures !IsGrammarWord(pos) ==>
      var key := LookupKey(baseForm, surface);
      entries <= LookupSpec(key, None, jam(key)) &&
      |entries| == if |LookupSpec(key, None, jam(key))| < MaxEntriesPerToken
                   then |LookupSpec(key, None, jam(key))| else MaxEntriesPerToken
    ensures forall d :: d in entries ==>
      1 <= |d.meanings| <= MaxMeanings && |d.partOfSpeech| <= MaxTags && NoDup(d.partOfSpeech)
  {
    if IsGrammarWord(pos) then []
    else
      var key := LookupKey(baseForm, surface);
      Take(LookupSpec(key, None, jam(key)), MaxEntriesPerToken)
  }

  /** `lookup_tokens`: set every token's dictionary entries, skipping grammar
      words, and hand back the same list. Only `dictionaryEntries` changes. */
  method LookupTokens(jam: string -> seq<RawEntry>, tokens: seq<Token>) returns (result: seq<Token>)
    modifies set t | t in tokens
    ensures result == tokens
    ensures forall t :: t in tokens ==>
      t.surface == old(t.surface) && t.baseForm == old(t.baseForm) && t.reading == old(t.reading) &&
      t.pos == old(t.pos) && t.posEnglish == old(t.posEnglish)
    ensures forall i :: 0 <= i < |tokens| ==>
      tokens[i].dictionaryEntries == Some(TokenEntries(jam, tokens[i].baseForm, tokens[i].surface, tokens[i].pos))
  {
    var i := 0;
    while i < |tokens|
      invariant 0 <= i <= |tokens|
      invariant forall t :: t in tokens ==>
        t.surface == old(t.surface) && t.baseForm == old(t.baseForm) && t.reading == old(t.reading) &&
        t.pos == old(t.pos) && t.posEnglish == old(t.posEnglish)
      invariant forall j :: 0 <= j < i ==>
        tokens[j].dictionaryEntries == Some(TokenEntries(jam, tokens[j].baseForm, tokens[j].surface, tokens[j].pos))
    {
      var token := tokens[i];
      var baseForm := LookupKey(token.baseForm, token.surface);
      var pos := if token.pos.Some? then token.pos.value else "";
      if pos in GrammarTags {
        token.dictionaryEntries := Some([]);
      } else {
        var entries := LookupWord(jam, baseForm, None);
        token.dictionaryEntries := Some(Take(entries, MaxEntriesPerToken));
      }
      i := i + 1;
    }
    result := tokens;
  }
}
