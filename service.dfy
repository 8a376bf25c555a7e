/** The text entry point of the service (`parse_text_only` in
    backend/app/main.py): tokenize, enrich, and copy each token dictionary
    into a response token. HTTP framing and error translation are not modelled. */
module Service {
  import opened Records
  import opened Sequences
  import opened Parser
  import opened Dictionary

  /** The response token produced for one parsed token. */
  function EnrichedRecord(jam: string -> seq<RawEntry>, p: ParsedToken): (r: TokenRecord)
    ensures r.surface == p.surface && r.baseForm == p.baseForm && r.reading == p.reading && r.pos == p.pos
    ensures r.posEnglish == Some(p.posEnglish)
    ensures |r.dictionaryEntries| <= MaxEntriesPerToken
    ensures p.pos in GrammarTags ==> r.dictionaryEntries == []
  {
    TokenRecord(p.surface, p.baseForm, p.reading, p.pos, Some(p.posEnglish),
      TokenEntries(jam, Some(p.baseForm), Some(p.surface), Some(p.pos)))
  }

  /** The sentence the service returns for `text`. */
  function ProcessSpec(tagger: string -> seq<Unit>, jam: string -> seq<RawEntry>, text: string): (s: ParsedSentence)
    ensures s.originalText == text
    ensures text == "" ==> s.tokens == []
  {
    if text == "" then ParsedSentence("", [])
    else
      var parsed := ParseSpec(tagger(text));
      ParsedSentence(text, seq(|parsed|, i requires 0 <= i < |parsed| => EnrichedRecord(jam, parsed[i])))
  }

  /** Every token of a response obeys the caps and the grammar skip, and is
      looked up under its base form. */
  lemma ResponseInvariants(tagger: string -> seq<Unit>, jam: string -> seq<RawEntry>, text: string)
    ensures forall t :: t in ProcessSpec(tagger, jam, text).tokens ==>
      t.surface != "" && t.baseForm != "" && t.posEnglish == Some(PosEnglish(t.pos)) &&
      |t.dictionaryEntries| <= MaxEntriesPerToken &&
      (t.pos in GrammarTags ==> t.dictionaryEntries == []) &&
      (t.pos !in GrammarTags ==> t.dictionaryEntries <= LookupSpec(t.baseForm, None, jam(t.baseForm))) &&
      forall d :: d in t.dictionaryEntries ==>
        1 <= |d.meanings| <= MaxMeanings && |d.partOfSpeech| <= MaxTags && NoDup(d.partOfSpeech)
  {
    if text != "" {
      var parsed := ParseSpec(tagger(text));
      forall t | t in ProcessSpec(tagger, jam, text).tokens
        ensures t.surface != "" && t.baseForm != "" && t.posEnglish == Some(PosEnglish(t.pos))
      {
        var i :| 0 <= i < |parsed| && t == EnrichedRecord(jam, parsed[i]);
        assert parsed[i] in parsed;
      }
    }
  }

  /** Concatenated surfaces of response tokens. */
  function SentenceText(tokens: seq<TokenRecord>): string {
    if tokens == [] then "" else SentenceText(tokens[..|tokens| - 1]) + tokens[|tokens| - 1].surface
  }

  lemma {:induction false} SentenceTextOfEnriched(jam: string -> seq<RawEntry>, parsed: seq<ParsedToken>)
    ensures SentenceText(seq(|parsed|, i requires 0 <= i < |parsed| => EnrichedRecord(jam, parsed[i])))
      == TokenText(parsed)
  {
    if parsed != [] {
      var init := parsed[..|parsed| - 1];
      SentenceTextOfEnriched(jam, init);
      var all := seq(|parsed|, i requires 0 <= i < |parsed| => EnrichedRecord(jam, parsed[i]));
      assert all[..|all| - 1] == seq(|init|, i requires 0 <= i < |init| => EnrichedRecord(jam, init[i]));
    }
  }

  /** The response tokens spell out exactly the text of the analyser's units. */
  lemma ResponseReconstructsUnits(tagger: string -> seq<Unit>, jam: string -> seq<RawEntry>, text: string)
    requires text != ""
    ensures SentenceText(ProcessSpec(tagger, jam, text).tokens) == UnitText(tagger(text))
  {
    SentenceTextOfEnriched(jam, ParseSpec(tagger(text)));
    ParsePreservesText(tagger(text));
  }

  /** Allocates one token dictionary per parsed token, with the same fields
      and no dictionary entries yet. */
  method NewTokens(parsed: seq<ParsedToken>) returns (tokens: seq<Token>)
    ensures |tokens| == |parsed|
    ensures forall j :: 0 <= j < |tokens| ==> fresh(tokens[j])
    ensures forall j :: 0 <= j < |tokens| ==> HoldsFields(tokens[j], parsed[j])
    ensures forall j :: 0 <= j < |tokens| ==> tokens[j].dictionaryEntries == None
  {
    tokens := [];
    var i := 0;
    while i < |parsed|
      invariant 0 <= i <= |parsed| && |tokens| == i
      invariant forall j :: 0 <= j < i ==> fresh(tokens[j])
      invariant forall j :: 0 <= j < i ==> HoldsFields(tokens[j], parsed[j])
      invariant forall j :: 0 <= j < i ==> tokens[j].dictionaryEntries == None
    {
      var p := parsed[i];
      var t := new Token(Some(p.surface), Some(p.baseForm), Some(p.reading), Some(p.pos), Some(p.posEnglish));
      tokens := tokens + [t];
      i := i + 1;
    }
  }

  /** The token dictionary carries the fields of the parsed token. */
  ghost predicate HoldsFields(t: Token, p: ParsedToken)
    reads t
  {
    t.surface == Some(p.surface) && t.baseForm == Some(p.baseForm) && t.reading == Some(p.reading) &&
    t.pos == Some(p.pos) && t.posEnglish == Some(p.posEnglish)
  }

  /** Copies enriched token dictionaries into response tokens; a missing
      `dictionary_entries` key reads as []. */
  method ResponseTokens(jam: string -> seq<RawEntry>, parsed: seq<ParsedToken>, tokens: seq<Token>)
    returns (records: seq<TokenRecord>)
    requires |tokens| == |parsed|
    requires forall j :: 0 <= j < |tokens| ==> HoldsFields(tokens[j], parsed[j])
    requires forall j :: 0 <= j < |tokens| ==>
      tokens[j].dictionaryEntries == Some(TokenEntries(jam, tokens[j].baseForm, tokens[j].surface, tokens[j].pos))
    ensures records == seq(|parsed|, i requires 0 <= i < |parsed| => EnrichedRecord(jam, parsed[i]))
  {
    records := [];
    var i := 0;
    while i < |tokens|
      invariant 0 <= i <= |tokens| && |records| == i
      invariant forall j :: 0 <= j < i ==> records[j] == EnrichedRecord(jam, parsed[j])
    {
      var t := tokens[i];
      assert HoldsFields(t, parsed[i]);
      var entries := if t.dictionaryEntries.Some? then t.dictionaryEntries.value else [];
      records := records + [TokenRecord(t.surface.value, t.baseForm.value, t.reading.value, t.pos.value,
                                        t.posEnglish, entries)];
      i := i + 1;
    }
  }

  /** `parse_text_only`: an empty text short-circuits to an empty sentence;
      otherwise the tokens are parsed, enriched in place and copied out. */
  method ParseText(tagger: string -> seq<Unit>, jam: string -> seq<RawEntry>, text: string)
    returns (sentence: ParsedSentence)
    ensures sentence == ProcessSpec(tagger, jam, text)
  {
    if text == "" {
      return ParsedSentence("", []);
    }
    var parsed := ParseJapaneseText(tagger, text);
    var tokens := NewTokens(parsed);
    var enriched := LookupTokens(jam, tokens);
    assert forall j :: 0 <= j < |tokens| ==> HoldsFields(tokens[j], parsed[j]);
    var records := ResponseTokens(jam, parsed, enriched);
    sentence := ParsedSentence(text, records);
  }
}
