/** Conversion of the morphological analyser's units into token records
    (backend/app/parser.py). The analyser itself (fugashi over MeCab with the
    unidic-lite dictionary) is a parameter: a function from text to the
    ordered units it emits. */
module Parser {
  import opened Records
  import opened Sequences

  /** One analysis unit as the tagger emits it. `lemma` and `kana` come from
      the unit's feature record, `tag` is its comma-separated part-of-speech
      string with the coarsest category first. */
  datatype Unit = Unit(surface: string, lemmaForm: Option<string>, kana: Option<string>, tag: Option<string>)

  /** The five-key token record produced for each retained unit. */
  datatype ParsedToken = ParsedToken(
    surface: string,
    baseForm: string,
    reading: string,
    pos: string,
    posEnglish: string)

  /** Part of speech reported when a unit carries no tag string. */
  const Unknown: string := "不明"

  /** UniDic coarse part-of-speech tag to English display label. */
  const PosMapping: map<string, string> := map[
    "名詞" := "Noun",
    "動詞" := "Verb",
    "形容詞" := "Adjective",
    "副詞" := "Adverb",
    "助詞" := "Particle",
    "助動詞" := "Auxiliary",
    "接続詞" := "Conjunction",
    "感動詞" := "Interjection",
    "連体詞" := "Pre-noun adjectival",
    "接頭辞" := "Prefix",
    "接尾辞" := "Suffix",
    "記号" := "Symbol",
    "補助記号" := "Punctuation",
    "空白" := "Whitespace"
  ]

  /** `POS_MAPPING.get(pos, pos)`: total, the tag itself when it has no label. */
  function PosEnglish(pos: string): (display: string)
    ensures pos in PosMapping ==> display == PosMapping[pos]
    ensures pos !in PosMapping ==> display == pos
  {
    if pos in PosMapping then PosMapping[pos] else pos
  }

  /** The table has exactly fourteen distinct tags, and the four tags the
      dictionary step treats as grammar words have the expected labels. */
  lemma PosMappingShape()
    ensures |PosMapping| == 14
    ensures PosMapping["助詞"] == "Particle"
    ensures PosMapping["記号"] == "Symbol"
    ensures PosMapping["補助記号"] == "Punctuation"
    ensures PosMapping["空白"] == "Whitespace"
  {
    // Build the table one entry at a time; each new tag differs from the earlier ones.
    var m: map<string, string> := map[];
    assert "名詞" !in m;
    m := m["名詞" := "Noun"];
    assert "動詞" !in m;
    m := m["動詞" := "Verb"];
    assert "形容詞" !in m;
    m := m["形容詞" := "Adjective"];
    assert "副詞" !in m;
    m := m["副詞" := "Adverb"];
    assert "助詞" !in m;
    m := m["助詞" := "Particle"];
    assert "助動詞" !in m;
    m := m["助動詞" := "Auxiliary"];
    assert "接続詞" !in m;
    m := m["接続詞" := "Conjunction"];
    assert "感動詞" !in m;
    m := m["感動詞" := "Interjection"];
    assert "連体詞" !in m;
    m := m["連体詞" := "Pre-noun adjectival"];
    assert "接頭辞" !in m;
    m := m["接頭辞" := "Prefix"];
    assert "接尾辞" !in m;
    m := m["接尾辞" := "Suffix"];
    assert "記号" !in m;
    m := m["記号" := "Symbol"];
    assert "補助記号" !in m;
    m := m["補助記号" := "Punctuation"];
    assert "空白" !in m;
    m := m["空白" := "Whitespace"];
    assert m == PosMapping;
  }

  /** `tag.split(",")[0]`: the text before the first comma (all of it if
      there is no comma, "" if the tag starts with one). */
  function FirstField(tag: string): (field: string)
    ensures field <= tag
    ensures ',' !in field
    ensures |field| < |tag| ==> tag[|field|] == ','
  {
    if tag == [] || tag[0] == ',' then [] else [tag[0]] + FirstField(tag[1..])
  }

  /** Coarse part of speech of a unit: `Unknown` for a missing or empty tag. */
  function PosOf(tag: Option<string>): (pos: string)
    ensures (tag == None || tag == Some("")) ==> pos == Unknown
    ensures tag.Some? && tag.value != "" ==>
      pos <= tag.value && ',' !in pos && (|pos| < |tag.value| ==> tag.value[|pos|] == ',')
  {
    match tag
    case None => Unknown
    case Some(t) => if t == "" then Unknown else FirstField(t)
  }

  /** Lookup form of a unit: the lemma when present and non-empty, else the surface. */
  function BaseFormOf(u: Unit): (base: string)
    ensures u.lemmaForm.Some? && u.lemmaForm.value != "" ==> base == u.lemmaForm.value
    ensures (u.lemmaForm == None || u.lemmaForm == Some("")) ==> base == u.surface
    ensures base == "" <==> u.surface == "" && (u.lemmaForm == None || u.lemmaForm == Some(""))
  {
    match u.lemmaForm
    case Some(l) => if l != "" then l else u.surface
    case None => u.surface
  }

  /** Kana reading of a unit, "" when the analyser gives none. */
  function ReadingOf(u: Unit): (reading: string)
    ensures reading != "" ==> u.kana == Some(reading)
    ensures reading == "" <==> (u.kana == None || u.kana == Some(""))
  {
    match u.kana
    case Some(k) => k
    case None => ""
  }

  /** The record built for one retained unit. */
  function ConvertUnit(u: Unit): (t: ParsedToken)
    ensures t.surface == u.surface
    ensures t.posEnglish == PosEnglish(t.pos)
  {
    var pos := PosOf(u.tag);
    ParsedToken(u.surface, BaseFormOf(u), ReadingOf(u), pos, PosEnglish(pos))
  }

  /** What the conversion loop produces for a unit sequence: every unit with a
      non-empty surface, converted, in analyser order. */
  function ParseSpec(units: seq<Unit>): (tokens: seq<ParsedToken>)
    ensures |tokens| <= |units|
    ensures forall t :: t in tokens ==> t.surface != "" && t.baseForm != "" && t.posEnglish == PosEnglish(t.pos)
  {
    if units == [] then []
    else
      var last := units[|units| - 1];
      ParseSpec(units[..|units| - 1]) + (if last.surface == "" then [] else [ConvertUnit(last)])
  }

  /** Every unit converted, empty surfaces included. */
  function ConvertAll(units: seq<Unit>): (tokens: seq<ParsedToken>)
    ensures |tokens| == |units|
    ensures forall i :: 0 <= i < |units| ==> tokens[i] == ConvertUnit(units[i])
  {
    if units == [] then [] else ConvertAll(units[..|units| - 1]) + [ConvertUnit(units[|units| - 1])]
  }

  /** Concatenated surfaces of the units. */
  function UnitText(units: seq<Unit>): string {
    if units == [] then "" else UnitText(units[..|units| - 1]) + units[|units| - 1].surface
  }

  /** Concatenated surfaces of the tokens. */
  function TokenText(tokens: seq<ParsedToken>): string {
    if tokens == [] then "" else TokenText(tokens[..|tokens| - 1]) + tokens[|tokens| - 1].surface
  }

  lemma {:induction false} TokenTextAppend(a: seq<ParsedToken>, b: seq<ParsedToken>)
    ensures TokenText(a + b) == TokenText(a) + TokenText(b)
    decreases |b|
  {
    if b == [] {
      assert a + b == a;
    } else {
      var b' := b[..|b| - 1];
      assert (a + b)[..|a + b| - 1] == a + b';
      TokenTextAppend(a, b');
    }
  }

  /** Dropping empty units loses no text: the tokens' surfaces spell out
      exactly what the analyser's units spell out. */
  lemma {:induction false} ParsePreservesText(units: seq<Unit>)
    ensures TokenText(ParseSpec(units)) == UnitText(units)
  {
    if units != [] {
      var init, last := units[..|units| - 1], units[|units| - 1];
      ParsePreservesText(init);
      var extra := if last.surface == "" then [] else [ConvertUnit(last)];
      TokenTextAppend(ParseSpec(init), extra);
      assert TokenText(extra) == last.surface by {
        if extra != [] { assert extra[..0] == []; }
      }
    }
  }

  /** The tokens are the converted units with the empty ones deleted, in
      analyser order. */
  lemma {:induction false} ParseInAnalyzerOrder(units: seq<Unit>)
    ensures IsSubsequence(ParseSpec(units), ConvertAll(units))
  {
    if units == [] {
      SubsequenceOfEmptyAndSelf(ConvertAll(units));
    } else {
      var init, last := units[..|units| - 1], units[|units| - 1];
      ParseInAnalyzerOrder(init);
      assert ConvertAll(units) == ConvertAll(init) + [ConvertUnit(last)];
      if last.surface == "" {
        assert ParseSpec(units) == ParseSpec(init);
        SubsequenceExtendRight(ParseSpec(init), ConvertAll(init), ConvertUnit(last));
      } else {
        assert ParseSpec(units) == ParseSpec(init) + [ConvertUnit(last)];
        SubsequenceExtendBoth(ParseSpec(init), ConvertAll(init), ConvertUnit(last));
      }
    }
  }

  /** A token is produced for a unit exactly when the unit's surface is non-empty. */
  lemma {:induction false} ParseMembership(units: seq<Unit>)
    ensures forall u :: u in units && u.surface != "" ==> ConvertUnit(u) in ParseSpec(units)
    ensures forall t :: t in ParseSpec(units) ==>
      exists u :: u in units && u.surface != "" && t == ConvertUnit(u)
  {
    if units != [] {
      var init, last := units[..|units| - 1], units[|units| - 1];
      ParseMembership(init);
      assert units == init + [last];
    }
  }

  /** `parse_japanese_text`: run the tagger and convert its units one by one,
      skipping units with an empty surface. */
  method ParseJapaneseText(tagger: string -> seq<Unit>, text: string) returns (tokens: seq<ParsedToken>)
    ensures tokens == ParseSpec(tagger(text))
  {
    var units := tagger(text);
    tokens := [];
    var i := 0;
    while i < |units|
      invariant 0 <= i <= |units|
      invariant tokens == ParseSpec(units[..i])
    {
      var word := units[i];
      assert units[..i + 1][..i] == units[..i];
      i := i + 1;
      if word.surface == "" {
        continue;
      }
      var pos := PosOf(word.tag);
      var baseForm := if word.lemmaForm.Some? && word.lemmaForm.value != "" then word.lemmaForm.value else word.surface;
      var reading := if word.kana.Some? && word.kana.value != "" then word.kana.value else "";
      tokens := tokens + [ParsedToken(word.surface, baseForm, reading, pos, PosEnglish(pos))];
    }
    assert units[..i] == units;
  }
}
