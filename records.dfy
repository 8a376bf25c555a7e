/** Record shapes exchanged between the tokenizer, the dictionary and the
    response (backend/app/models.py), and the Option used for fields that a
    collaborator may leave out. */
module Records {

  datatype Option<T> = None | Some(value: T)

  /** One JMdict sense group as returned to the client. */
  datatype DictionaryEntry = DictionaryEntry(
    word: string,
    reading: string,
    meanings: seq<string>,
    partOfSpeech: seq<string>)

  /** A response token. `posEnglish` is optional; `dictionaryEntries` defaults to []. */
  datatype TokenRecord = TokenRecord(
    surface: string,
    baseForm: string,
    reading: string,
    pos: string,
    posEnglish: Option<string>,
    dictionaryEntries: seq<DictionaryEntry>)

  /** The response root: the text that was analysed and its tokens. */
  datatype ParsedSentence = ParsedSentence(originalText: string, tokens: seq<TokenRecord>)
}
