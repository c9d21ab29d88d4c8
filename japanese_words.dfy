/**
 * `get_japanese_word`: one Japanese word from the language model, or an
 * apology when the reply cannot be read.
 */
module JapaneseWords {
  import opened Wrappers
  import opened Json
  import opened GoogleTts
  import opened LlmReply
  import GroqService

  const RequiredFields: seq<string> := ["word", "hiragana", "romaji", "part_of_speech", "definition_ja",
                                        "definition_zh", "example_sentence", "example_translation"]

  const ParseApology := "抱歉，獲取日文單字時發生錯誤，請通知維護人員，謝謝。"

  /**
   * The whole function. The call's exception propagates (it is outside the
   * `try`); an unreadable reply gives the apology text; a decoded object is
   * completed and becomes a card titled `日文單字：<word>`.
   */
  function GetJapaneseWordSpec(reply: Outcome<string>, loads: Loads): (r: Outcome<Message>)
    ensures reply.Raised? ==> r == Raised(reply.error)
    ensures r.Raised? <==> reply.Raised? || ParseReply(reply.value, loads) == Some(DecodedOther)
    ensures r.Returned? && r.value.TextMessage? <==> reply.Returned? && ParseReply(reply.value, loads).None?
    ensures r.Returned? && r.value.TextMessage? ==> r.value.text == ParseApology
  {
    match reply
    case Raised(e) => Raised(e)
    case Returned(text) =>
      match ParseReply(text, loads)
      case None => Returned(TextMessage(ParseApology))
      case Some(DecodedOther) => Raised(NotAnObjectError)
      case Some(DecodedObject(data)) =>
        var fields := Completed(data, RequiredFields);
        assert RequiredFields[0] == "word" && RequiredFields[6] == "example_sentence";
        Returned(FlexMessage("日文單字：" + Format(fields["word"]), Bubble(CardOf(fields))))
  }

  /** `get_japanese_word`, with its loop over the eight required fields. */
  method GetJapaneseWord(reply: Outcome<string>, loads: Loads) returns (r: Outcome<Message>)
    ensures r == GetJapaneseWordSpec(reply, loads)
  {
    if reply.Raised? {
      return Raised(reply.error);
    }
    var parsed := ParseReply(reply.value, loads);
    if parsed.None? {
      return Returned(TextMessage(ParseApology));
    }
    if parsed.value.DecodedOther? {
      return Raised(NotAnObjectError);
    }
    var wordData := CompleteFields(parsed.value.fields, RequiredFields);
    assert RequiredFields[0] == "word" && RequiredFields[6] == "example_sentence";
    return Returned(FlexMessage("日文單字：" + Format(wordData["word"]), Bubble(CardOf(wordData))));
  }

  /** A reply that is JSON as it stands is used as it is; its braces are not searched. */
  lemma ValidJsonUsedAsIs(reply: string, loads: Loads, data: Object)
    requires loads(reply) == Some(DecodedObject(data))
    ensures GetJapaneseWordSpec(Returned(reply), loads).Returned?
    ensures GetJapaneseWordSpec(Returned(reply), loads).value.FlexMessage?
    ensures GetJapaneseWordSpec(Returned(reply), loads).value.contents.card.fields
      == Completed(data, RequiredFields)
  {
  }

  /**
   * A reply that neither decodes nor has a decodable brace span gives the
   * apology text, not a card.
   */
  lemma UnreadableReplyApologises(reply: string, loads: Loads)
    requires loads(reply).None?
    requires BraceSpan(reply).None? || loads(reply[BraceSpan(reply).value.0..BraceSpan(reply).value.1 + 1]).None?
    ensures GetJapaneseWordSpec(Returned(reply), loads) == Returned(TextMessage(ParseApology))
  {
  }

  /**
   * The card of a decoded object: all eight fields present (hiragana, romaji
   * and definition_ja among them), given values kept, the alt text naming the
   * word, and links built with the English voice `tl=en`.
   */
  lemma JapaneseCard(reply: string, loads: Loads, data: Object)
    requires ParseReply(reply, loads) == Some(DecodedObject(data))
    ensures var r := GetJapaneseWordSpec(Returned(reply), loads);
      r.Returned? && r.value.FlexMessage? && r.value.contents.Bubble?
    ensures var card := GetJapaneseWordSpec(Returned(reply), loads).value.contents.card;
      (forall f :: f in RequiredFields ==> f in card.fields)
      && (forall k :: k in data ==> card.fields[k] == data[k])
      && GetJapaneseWordSpec(Returned(reply), loads).value.altText == "日文單字：" + Format(card.fields["word"])
      && (card.wordAudio != "" ==> card.wordAudio[..|TtsPrefix|] == TtsPrefix)
  {
    var card := GetJapaneseWordSpec(Returned(reply), loads).value.contents.card;
    assert "word" in card.fields by { assert RequiredFields[0] == "word"; }
    if card.wordAudio != "" {
      assert card.wordAudio == TtsPrefix + Quote(card.fields["word"].s);
    }
  }

  /**
   * As the call is written, with `session_type="japanese"`, the exception
   * reaches the caller whatever the model would have said: no card and no
   * apology is ever produced.
   */
  lemma SessionTypeCallRaises(loads: Loads)
    ensures GetJapaneseWordSpec(Raised(GroqService.SessionTypeError), loads)
      == Raised(GroqService.SessionTypeError)
  {
  }
}
