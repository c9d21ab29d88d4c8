/**
 * `get_english_word` of words.py: one word from the language model, with a
 * fixed fallback word whenever the reply cannot be read.
 */
module Words {
  import opened Wrappers
  import opened Json
  import opened GoogleTts
  import opened LlmReply

  /** The word shown when the reply cannot be read. */
  const FallbackWord: Object := map[
    "word" := JStr("fallback"),
    "pronunciation" := JStr("/ˈfɔːlbæk/"),
    "part_of_speech" := JStr("noun"),
    "definition_en" := JStr("something or someone to turn to in case of failure or emergency"),
    "definition_zh" := JStr("備用方案、後備選擇"),
    "example_sentence" := JStr("We need a fallback plan in case this doesn't work."),
    "example_translation" := JStr("我們需要一個備用計劃，以防這個不起作用。")
  ]

  /** The word data after the `try`: the decoded object, or the fallback word. */
  function WordDataOf(reply: string, loads: Loads): (r: Option<Object>)
    ensures ParseReply(reply, loads).None? ==> r == Some(FallbackWord)
    ensures ParseReply(reply, loads).Some? && ParseReply(reply, loads).value.DecodedObject? ==>
      r == Some(ParseReply(reply, loads).value.fields)
    ensures r.None? <==> ParseReply(reply, loads) == Some(DecodedOther)
  {
    match ParseReply(reply, loads)
    case None => Some(FallbackWord)
    case Some(DecodedOther) => None
    case Some(DecodedObject(data)) => Some(data)
  }

  /** The message for completed word data: alt text `英文單字：<word>` and the word card. */
  function WordMessage(fields: Object): (m: Message)
    requires "word" in fields && "example_sentence" in fields
    ensures m.FlexMessage? && m.contents == Bubble(CardOf(fields))
    ensures m.altText == "英文單字：" + Format(fields["word"])
  {
    FlexMessage("英文單字：" + Format(fields["word"]), Bubble(CardOf(fields)))
  }

  /**
   * The whole function: the call's exception propagates (it is outside the
   * `try`), and so does the field loop's on a non-object.
   */
  function GetEnglishWordSpec(reply: Outcome<string>, loads: Loads): (r: Outcome<Message>)
    ensures reply.Raised? ==> r == Raised(reply.error)
    ensures r.Raised? <==> reply.Raised? || ParseReply(reply.value, loads) == Some(DecodedOther)
    ensures r.Returned? ==> r.value.FlexMessage? && r.value.contents.Bubble?
  {
    match reply
    case Raised(e) => Raised(e)
    case Returned(text) =>
      match WordDataOf(text, loads)
      case None => Raised(NotAnObjectError)
      case Some(data) =>
        assert "word" in Completed(data, EnglishWordFields) by { assert EnglishWordFields[0] == "word"; }
        assert "example_sentence" in Completed(data, EnglishWordFields) by {
          assert EnglishWordFields[5] == "example_sentence";
        }
        Returned(WordMessage(Completed(data, EnglishWordFields)))
  }

  /** `get_english_word`, with its field-completion loop. */
  method GetEnglishWord(reply: Outcome<string>, loads: Loads) returns (r: Outcome<Message>)
    ensures r == GetEnglishWordSpec(reply, loads)
  {
    if reply.Raised? {
      return Raised(reply.error);
    }
    var data := WordDataOf(reply.value, loads);
    if data.None? {
      return Raised(NotAnObjectError);
    }
    var wordData := CompleteFields(data.value, EnglishWordFields);
    assert EnglishWordFields[0] == "word" && EnglishWordFields[5] == "example_sentence";
    return Returned(WordMessage(wordData));
  }

  /** The fallback word already has every field; its word is "fallback". */
  lemma FallbackWordComplete()
    ensures forall f :: f in EnglishWordFields ==> f in FallbackWord
    ensures Completed(FallbackWord, EnglishWordFields) == FallbackWord
    ensures Format(FallbackWord["word"]) == "fallback"
  {
    CompletedKeepsFullData(FallbackWord, EnglishWordFields);
  }

  /** A reply that cannot be read still gives a card, the fallback one, never an error. */
  lemma UnreadableReplyFallsBack(reply: string, loads: Loads)
    requires ParseReply(reply, loads).None?
    ensures GetEnglishWordSpec(Returned(reply), loads) == Returned(WordMessage(FallbackWord))
  {
    FallbackWordComplete();
  }

  /**
   * A reply decoding to an object gives the card of that object completed:
   * every required field present, values the model gave kept as they are.
   */
  lemma ObjectReplyCompleted(reply: string, loads: Loads, data: Object)
    requires ParseReply(reply, loads) == Some(DecodedObject(data))
    ensures GetEnglishWordSpec(Returned(reply), loads).Returned?
    ensures var m := GetEnglishWordSpec(Returned(reply), loads).value;
      m.contents.Bubble?
      && (forall f :: f in EnglishWordFields ==> f in m.contents.card.fields)
      && (forall k :: k in data ==> m.contents.card.fields[k] == data[k])
  {
  }
}
