# YomiGo text enrichment, modelled in Dafny

YomiGo turns Japanese manga text into an annotated sentence breakdown. This
project models the deterministic core of that pipeline:

* **Token conversion** (`backend/app/parser.py`): the units emitted by the
  MeCab/fugashi tagger become token records with a surface, a base form
  (lemma, falling back to the surface), a kana reading, the coarse part of
  speech (the tag string up to its first comma, `不明` when the tag is absent or empty) and its
  English label from the fixed 14-entry table.
* **Dictionary enrichment** (`backend/app/dictionary.py`): `lookup_word`
  turns raw JMdict entries into `DictionaryEntry` records (headword choice,
  strict reading filter, English-only glosses, tag deduplication in
  first-seen order, caps of 5 meanings and 3 tags, entries without English
  glosses dropped); `lookup_tokens` walks the token dictionaries in place,
  gives grammar words (`助詞`, `補助記号`, `記号`, `空白`) no entries and
  every other token the first at most 3 entries for its base form.
* **Text entry point** (`parse_text_only` in `backend/app/main.py`), as a thin
  wrapper: empty text yields an empty sentence, otherwise parse, enrich and
  copy each token dictionary into a response token.

The tagger is a parameter `tagger: string -> seq<Unit>` and the JMdict
database a parameter `jam: string -> seq<RawEntry>`; both are treated as
opaque, deterministic collaborators.

Files: `records.dfy` (response shapes of `models.py` and `Option`),
`sequences.dfy` (slicing, subsequences, duplicate freedom), `parser.dfy`,
`dictionary.dfy`, `service.dfy`.

The loops of `parse_japanese_text`, `lookup_word` and its sense loops are
methods proved equal to specification functions that recurse from the end of
their input, so that each loop's invariant is the specification of the prefix
processed so far; the properties are stated as lemmas about those
specification functions. The sense loops of `lookup_word` are a separate
method (`CollectSenses`). `lookup_tokens` is a method over token objects whose
loop invariant says, token by token, which entries have been stored. In the
service, `NewTokens` builds the token dictionaries that `parse_japanese_text`
builds (one object per parsed token, no `dictionary_entries` key yet), and
`ResponseTokens` copies the enriched dictionaries into response tokens with a
pointwise invariant. The dictionary-to-dict copy at the end of `lookup_tokens`
keeps every field, so the model stores the `DictionaryEntry` values as they are.

Facts about the source that shape the model:

* The lookup key is the base form, else the surface, else `""`
  (`backend/app/dictionary.py`, line 132).
* No kana normalisation is applied anywhere: the reading filter compares exact
  strings (`backend/app/dictionary.py`, lines 81-83), and the reported reading
  is whatever the tagger or the database gave.
* Text reconstruction holds relative to the tagger's units (their surfaces
  concatenated); whether those spell the input string depends on the tagger.

## Model

| member | source | states |
|---|---|---|
| `Parser.PosMappingShape` | backend/app/parser.py:30-45 | The table has exactly 14 keys; the four grammar tags map to Particle, Symbol, Punctuation and Whitespace. |
| `Parser.PosEnglish` | backend/app/parser.py:113 | Total label lookup: the table's label for a key, the tag itself otherwise. |
| `Parser.FirstField` | backend/app/parser.py:100 | `split(",")[0]`: a prefix of the tag, containing no comma, followed by a comma or the end of the tag. |
| `Parser.PosOf` | backend/app/parser.py:100 | Missing or empty tag gives `不明`; otherwise the comma-free prefix before the first comma. |
| `Parser.BaseFormOf` | backend/app/parser.py:103 | Lemma when present and non-empty, else the surface; empty only when both are. |
| `Parser.ReadingOf` | backend/app/parser.py:106 | The kana field when non-empty, otherwise `""`. |
| `Parser.ConvertUnit` | backend/app/parser.py:108-114 | The record keeps the unit's surface, and its English label is the table lookup of its part of speech. |
| `Parser.ParseSpec` | backend/app/parser.py:93-116 | At most one token per unit; every token has a non-empty surface and base form and the table label of its part of speech. |
| `Parser.ParsePreservesText` | backend/app/parser.py:93-114 | Concatenated token surfaces equal concatenated unit surfaces: dropped units contribute nothing. |
| `Parser.ParseInAnalyzerOrder` | backend/app/parser.py:93-114 | The tokens are the converted units with some deleted, in analyser order. |
| `Parser.ParseMembership` | backend/app/parser.py:94-96 | Every unit with a non-empty surface yields its token, and every token comes from such a unit. |
| `Parser.ParseJapaneseText` | backend/app/parser.py:62-116 | The conversion loop, with `continue` on empty surfaces, produces exactly `ParseSpec` of the tagger's units. |
| `Dictionary.Headword` | backend/app/dictionary.py:77 | First kanji form, else first kana form, else the query; always one of those. |
| `Dictionary.FirstKana` | backend/app/dictionary.py:78 | The reported reading is the first kana form, or `""` without kana forms. |
| `Dictionary.IsEnglish` | backend/app/dictionary.py:91 | A gloss language counts as English when it is absent, `eng` or `en`. |
| `Dictionary.Admits` | backend/app/dictionary.py:81 | The reading filter admits an entry when the reading is missing or empty, or is exactly one of the entry's kana forms. |
| `Dictionary.EnglishGlosses` | backend/app/dictionary.py:90-92 | The English gloss texts of one sense, never more than its glosses; contents and order by `EnglishGlossesMembership` and `MeaningsFilterAllGlosses`. |
| `Dictionary.Meanings` | backend/app/dictionary.py:88-92 | The English gloss texts of all senses, sense after sense; contents by `MeaningsMembership` and `MeaningsFilterAllGlosses`. |
| `Dictionary.MeaningsFilterAllGlosses` | backend/app/dictionary.py:88-92 | The meanings equal the English or untagged glosses of the flattened gloss list, in sense-then-gloss order, duplicates kept. |
| `Dictionary.EnglishGlossesMembership` | backend/app/dictionary.py:90-92 | A text is collected from a sense exactly when one of its English or untagged glosses carries it. |
| `Dictionary.MeaningsMembership` | backend/app/dictionary.py:88-92 | A text is among the meanings exactly when an English or untagged gloss of some sense carries it. |
| `Dictionary.AddNew` | backend/app/dictionary.py:95-97 | Appending unseen tags keeps the earlier list as a prefix, keeps duplicate freedom, and holds exactly the old tags plus the new ones. |
| `Dictionary.PosTags` | backend/app/dictionary.py:88-97 | An entry's collected tags are duplicate-free and are exactly the tags of its senses. |
| `Dictionary.ToEntry` | backend/app/dictionary.py:100-105 | Meanings are a prefix of the English glosses of length min(5, n), duplicates kept; tags are a duplicate-free prefix of length min(3, n) of the deduplicated tags. |
| `Dictionary.Keeps` | backend/app/dictionary.py:81-99 | An entry is returned when the reading filter admits it and it has at least one English gloss. |
| `Dictionary.LookupSpec` | backend/app/dictionary.py:70-107 | At most one result per raw entry; every result has 1 to 5 meanings and at most 3 distinct tags. |
| `Dictionary.LookupSpecIsConvertedKept` | backend/app/dictionary.py:71-105 | The results are the surviving raw entries converted one to one, in the same order. |
| `Dictionary.KeptMembership` | backend/app/dictionary.py:80-99 | A raw entry survives if and only if the reading filter admits it and it has an English gloss. |
| `Dictionary.KeptInDatabaseOrder` | backend/app/dictionary.py:70-107 | Surviving entries are a subsequence of the database's entries. |
| `Dictionary.StrictReadingFilter` | backend/app/dictionary.py:81-83 | With a non-empty reading, every survivor lists exactly that string among its kana forms, and entries without it are excluded. |
| `Dictionary.EmptyReadingFiltersNothing` | backend/app/dictionary.py:81 | An empty reading gives the same result as no reading. |
| `Dictionary.ReadingFilterOnlyRemoves` | backend/app/dictionary.py:78-83 | A reading filter only deletes results; the results it keeps, including their reported reading, are unchanged. |
| `Dictionary.EnglishGlossesEmpty` | backend/app/dictionary.py:90-92 | A sense contributes no meanings exactly when none of its glosses is English or untagged. |
| `Dictionary.MeaningsEmpty` | backend/app/dictionary.py:88-99 | An entry has no meanings, and so is dropped, exactly when no gloss of any sense is English or untagged. |
| `Dictionary.AddNewAppend` | backend/app/dictionary.py:94-97 | Deduplicating sense by sense equals deduplicating the concatenated tag lists. |
| `Dictionary.PosTagsIsDedup` | backend/app/dictionary.py:94-97 | The collected tags are the order-preserving deduplication of all tags of all senses. |
| `Dictionary.DedupFirstSeenOrder` | backend/app/dictionary.py:95-97 | Deduplicated tags appear in the order of their first occurrence. |
| `Dictionary.PosTagsFirstSeenOrder` | backend/app/dictionary.py:88-97 | An entry's tags: no duplicates, every sense's tags, in first-seen order. |
| `Dictionary.LookupWord` | backend/app/dictionary.py:43-107 | The entry loop, with its `continue` on filtered entries, returns exactly `LookupSpec` of the database's entries. |
| `Dictionary.CollectSenses` | backend/app/dictionary.py:85-97 | The nested sense and gloss loops gather exactly the entry's English meanings and its deduplicated tags. |
| `Dictionary.Token.constructor` | backend/app/parser.py:108-114 | A token dictionary holds the five parsed fields and no dictionary entries yet. |
| `Dictionary.LookupKey` | backend/app/dictionary.py:132 | The key is the base form, else the surface, else `""`. |
| `Dictionary.IsGrammarWord` | backend/app/dictionary.py:135-136 | A token is skipped when its part of speech is one of `助詞`, `補助記号`, `記号`, `空白`; a missing part of speech is not skipped. |
| `Dictionary.TokenEntries` | backend/app/dictionary.py:129-151 | Grammar words get `[]`; other tokens get the first min(3, n) results for their key; every entry obeys the meaning and tag caps. |
| `Dictionary.LookupTokens` | backend/app/dictionary.py:110-153 | Returns the same list; every token's entries become `TokenEntries` of its fields; no other field changes. |
| `Service.EnrichedRecord` | backend/app/main.py:239-247 | A response token keeps the parsed token's fields, reports its English label, and holds at most 3 entries, none for grammar words. |
| `Service.NewTokens` | backend/app/parser.py:108-114 | One fresh token dictionary per parsed token, holding its five fields and no `dictionary_entries` key. |
| `Service.ProcessSpec` | backend/app/main.py:233-234 | Empty text gives an empty sentence; the original text is always reported unchanged. |
| `Service.ResponseInvariants` | backend/app/main.py:236-254 | Every response token has a non-empty surface and base form and at most 3 entries; grammar words have none; others are a prefix of the base form's lookup; all entry caps hold. |
| `Service.ResponseReconstructsUnits` | backend/app/main.py:236-254 | The response tokens' surfaces concatenate to the tagger units' surfaces. |
| `Service.ResponseTokens` | backend/app/main.py:239-249 | Each enriched token dictionary becomes the response token of its parsed token. |
| `Service.ParseText` | backend/app/main.py:232-254 | Parsing, in-place enrichment and copying into response tokens produce exactly `ProcessSpec`. |

## Left out

- The tagger (fugashi, MeCab, unidic-lite) and the JMdict database (jamdict) are parameters; their internals, and the lazy singletons `get_tagger` and `get_jamdict`, are not modelled.
- `is_parser_available` and `is_dictionary_available` probe Python imports; there is nothing to model.
- `backend/app/ocr.py` (image decoding and the OCR model) is not part of this model; the image endpoint of `backend/app/main.py` differs from `parse_text_only` only by that OCR call.
- HTTP routing, CORS, startup printouts and the translation of exceptions into HTTP 500 responses are not modelled; the collaborators are assumed not to fail.
- Pydantic validation when building response tokens is not modelled; the token dictionaries always carry the keys the copy reads.
- Concurrency: the source has none beyond the web framework.
- `Service.ResponseReconstructsUnits`: states reconstruction of the tagger units' text, not of the input string, because that depends on the tagger.
