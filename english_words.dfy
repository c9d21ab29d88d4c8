/**
 * The English vocabulary feature: the difficulty lookup of
 * `get_english_words`, the `count` requests of `fetch_english_words_flex`
 * and the way it packages the words, and `get_single_english_word`.
 * The language model is an abstract function: the reply to the `i`-th
 * request at a difficulty level, or the exception the call raises.
 */
module EnglishWords {
  import opened Wrappers
  import opened Text
  import opened Json
  import opened LlmReply
  import GroqService

  const DifficultyLevels: map<string, string> :=
    map["1" := "beginner", "2" := "intermediate", "3" := "advanced"]

  const DifficultyNames: map<string, string> :=
    map["1" := "初級 (Basic)", "2" := "中級 (Intermediate)", "3" := "高級 (Advanced)"]

  const ParseApology := "抱歉，獲取英文單字時發生錯誤，請通知維護人員，謝謝。"
  const NoWordsText := "抱歉，無法生成英文單字，請稍後再試。"
  const FetchFailedText := "無法取得英文單字內容"

  /** The reply to the `i`-th request at a difficulty level, or the exception of the call. */
  type Ask = (string, nat) -> Outcome<string>

  /** What `get_single_english_word` returns: the word data, or the apology text. */
  datatype SingleWord = WordData(fields: Object) | Apology(text: string)

  /**
   * `get_single_english_word` on the model's reply. The call itself is
   * outside the `try`, so its exception propagates; a reply that cannot be
   * read gives the apology; a decoded object is completed.
   */
  function SingleWordOf(reply: Outcome<string>, loads: Loads): (r: Outcome<SingleWord>)
    ensures reply.Raised? ==> r == Raised(reply.error)
    ensures reply.Returned? && ParseReply(reply.value, loads).None? ==> r == Returned(Apology(ParseApology))
    ensures r.Returned? && r.value.WordData? ==>
      reply.Returned? && ParseReply(reply.value, loads).Some?
      && ParseReply(reply.value, loads).value.DecodedObject?
      && r.value.fields == Completed(ParseReply(reply.value, loads).value.fields, EnglishWordFields)
    ensures r.Returned? && r.value.WordData? ==> forall f :: f in EnglishWordFields ==> f in r.value.fields
    ensures r.Returned? && r.value.WordData? ==> "word" in r.value.fields && "example_sentence" in r.value.fields
  {
    assert EnglishWordFields[0] == "word" && EnglishWordFields[5] == "example_sentence";
    match reply
    case Raised(e) => Raised(e)
    case Returned(text) =>
      match ParseReply(text, loads)
      case None => Returned(Apology(ParseApology))
      case Some(DecodedOther) => Raised(NotAnObjectError)
      case Some(DecodedObject(data)) => Returned(WordData(Completed(data, EnglishWordFields)))
  }

  /** `get_single_english_word`, with its field-completion loop. */
  method GetSingleEnglishWord(reply: Outcome<string>, loads: Loads) returns (r: Outcome<SingleWord>)
    ensures r == SingleWordOf(reply, loads)
  {
    if reply.Raised? {
      return Raised(reply.error);
    }
    var parsed := ParseReply(reply.value, loads);
    if parsed.None? {
      return Returned(Apology(ParseApology));
    }
    if parsed.value.DecodedOther? {
      return Raised(NotAnObjectError);
    }
    var wordData := CompleteFields(parsed.value.fields, EnglishWordFields);
    return Returned(WordData(wordData));
  }

  /**
   * The cards of the first `n` requests, in order: an apology is skipped, an
   * exception ends the whole loop.
   */
  function Cards(level: string, ask: Ask, loads: Loads, n: nat): (r: Outcome<seq<WordCard>>)
    ensures r.Returned? ==> |r.value| <= n
  {
    if n == 0 then Returned([])
    else AddWord(Cards(level, ask, loads, n - 1), SingleWordOf(ask(level, n - 1), loads))
  }

  /**
   * One iteration of the loop: an exception so far or now ends it, an
   * apology adds nothing, word data adds its card at the end.
   */
  function AddWord(cards: Outcome<seq<WordCard>>, word: Outcome<SingleWord>): (r: Outcome<seq<WordCard>>)
    requires word.Returned? && word.value.WordData? ==> "word" in word.value.fields && "example_sentence" in word.value.fields
    ensures r.Returned? <==> cards.Returned? && word.Returned?
    ensures r.Returned? ==> |cards.value| <= |r.value| <= |cards.value| + 1
    ensures cards.Raised? ==> r == cards
    ensures cards.Returned? && word.Raised? ==> r == Raised(word.error)
    ensures r.Returned? && word.value.Apology? ==> r.value == cards.value
    ensures r.Returned? && word.value.WordData? ==> r.value == cards.value + [CardOf(word.value.fields)]
    ensures r.Returned? ==> r.value == cards.value + CardsOfReply(word)
  {
    match cards
    case Raised(e) => Raised(e)
    case Returned(acc) =>
      match word
      case Raised(e) => Raised(e)
      case Returned(Apology(_)) => Returned(acc)
      case Returned(WordData(fields)) => Returned(acc + [CardOf(fields)])
  }

  /** The cards of one more request are those of the previous ones with that request's word added. */
  lemma CardsUnfold(level: string, ask: Ask, loads: Loads, m: nat)
    ensures Cards(level, ask, loads, m + 1)
      == AddWord(Cards(level, ask, loads, m), SingleWordOf(ask(level, m), loads))
  {
  }

  /** The alt text of a carousel: it names the requested count, not the number of cards. */
  function CarouselAltText(difficultyName: string, count: int): string {
    "英文單字學習 - " + difficultyName + " (" + IntToString(count) + "個)"
  }

  /**
   * `fetch_english_words_flex`: the error text if any request raised, the
   * "no words" text for no card, a single bubble for one, a carousel otherwise.
   */
  function FetchReply(difficultyName: string, level: string, count: int, ask: Ask, loads: Loads): (m: Message)
    ensures m.TextMessage? ==> m.text == FetchFailedText || m.text == NoWordsText
    ensures m.FlexMessage? && m.contents.Bubble? ==> m.altText == "英文單字學習 - " + difficultyName
    ensures m.FlexMessage? && m.contents.Carousel? ==>
      m.altText == CarouselAltText(difficultyName, count) && 2 <= |m.contents.cards| <= count
  {
    match Cards(level, ask, loads, if count < 0 then 0 else count)
    case Raised(_) => TextMessage(FetchFailedText)
    case Returned(cards) =>
      if |cards| == 0 then TextMessage(NoWordsText)
      else if |cards| == 1 then FlexMessage("英文單字學習 - " + difficultyName, Bubble(cards[0]))
      else FlexMessage(CarouselAltText(difficultyName, count), Carousel(cards))
  }

  /**
   * The loop over `range(count)` of `fetch_english_words_flex`: the cards in
   * order, or the exception of the first request that raised.
   */
  method CollectCards(level: string, count: int, ask: Ask, loads: Loads) returns (r: Outcome<seq<WordCard>>)
    ensures r == Cards(level, ask, loads, if count < 0 then 0 else count)
  {
    var bubbles: seq<WordCard> := [];
    var n := if count < 0 then 0 else count;
    for i := 0 to n
      invariant Cards(level, ask, loads, i) == Returned(bubbles)
    {
      var word := GetSingleEnglishWord(ask(level, i), loads);
      CardsUnfold(level, ask, loads, i);
      if word.Raised? {
        CardsStayRaised(level, ask, loads, i + 1, n);
        return Raised(word.error);
      }
      if word.value.WordData? {
        bubbles := bubbles + [CardOf(word.value.fields)];
      }
    }
    return Returned(bubbles);
  }

  /** `fetch_english_words_flex`: the loop, then the `except` and the packaging of the cards. */
  method FetchEnglishWordsFlex(difficultyName: string, level: string, count: int, ask: Ask, loads: Loads)
    returns (m: Message)
    ensures m == FetchReply(difficultyName, level, count, ask, loads)
  {
    var cards := CollectCards(level, count, ask, loads);
    if cards.Raised? {
      return TextMessage(FetchFailedText);
    }
    var bubbles := cards.value;
    if |bubbles| == 0 {
      return TextMessage(NoWordsText);
    }
    if |bubbles| == 1 {
      return FlexMessage("英文單字學習 - " + difficultyName, Bubble(bubbles[0]));
    }
    return FlexMessage(CarouselAltText(difficultyName, count), Carousel(bubbles));
  }

  /** Once a request has raised, no later request runs: the first exception is the outcome. */
  lemma {:induction false} CardsStayRaised(level: string, ask: Ask, loads: Loads, i: nat, n: nat)
    requires i <= n && Cards(level, ask, loads, i).Raised?
    ensures Cards(level, ask, loads, n) == Cards(level, ask, loads, i)
    decreases n - i
  {
    if i < n {
      CardsUnfold(level, ask, loads, i);
      CardsStayRaised(level, ask, loads, i + 1, n);
    }
  }

  /** Some request among the first `n` raises. */
  predicate AnyRaised(level: string, ask: Ask, loads: Loads, n: nat) {
    exists i :: 0 <= i < n && SingleWordOf(ask(level, i), loads).Raised?
  }

  /** The card a reply adds: one for word data, none for an apology or an exception. */
  function CardsOfReply(word: Outcome<SingleWord>): (r: seq<WordCard>)
    requires word.Returned? && word.value.WordData? ==> "word" in word.value.fields && "example_sentence" in word.value.fields
    ensures |r| <= 1
    ensures |r| == 1 <==> word.Returned? && word.value.WordData?
  {
    if word.Returned? && word.value.WordData? then [CardOf(word.value.fields)] else []
  }

  /**
   * The cards of the word data among the first `n` replies, in request
   * order, apologies left out; exceptions play no part here.
   */
  function GoodCards(level: string, ask: Ask, loads: Loads, n: nat): seq<WordCard> {
    if n == 0 then []
    else GoodCards(level, ask, loads, n - 1) + CardsOfReply(SingleWordOf(ask(level, n - 1), loads))
  }

  lemma GoodCardsUnfold(level: string, ask: Ask, loads: Loads, m: nat)
    ensures GoodCards(level, ask, loads, m + 1)
      == GoodCards(level, ask, loads, m) + CardsOfReply(SingleWordOf(ask(level, m), loads))
  {
  }

  /** One more request raises iff an earlier one did or this one does. */
  lemma AnyRaisedStep(level: string, ask: Ask, loads: Loads, m: nat)
    ensures AnyRaised(level, ask, loads, m + 1)
      <==> AnyRaised(level, ask, loads, m) || SingleWordOf(ask(level, m), loads).Raised?
  {
    if AnyRaised(level, ask, loads, m + 1) && !SingleWordOf(ask(level, m), loads).Raised? {
      var i :| 0 <= i < m + 1 && SingleWordOf(ask(level, i), loads).Raised?;
      assert i < m;
    }
  }

  /** The loop raises iff some request raises. */
  lemma {:induction false} CardsRaisedIff(level: string, ask: Ask, loads: Loads, n: nat)
    ensures Cards(level, ask, loads, n).Raised? <==> AnyRaised(level, ask, loads, n)
  {
    if n > 0 {
      var m: nat := n - 1;
      CardsRaisedIff(level, ask, loads, m);
      CardsUnfold(level, ask, loads, m);
      AnyRaisedStep(level, ask, loads, m);
    }
  }

  /** When the loop does not raise, it collects exactly the cards of the word data, in request order. */
  lemma {:induction false} CardsAreGoodCards(level: string, ask: Ask, loads: Loads, n: nat)
    requires Cards(level, ask, loads, n).Returned?
    ensures Cards(level, ask, loads, n).value == GoodCards(level, ask, loads, n)
  {
    if n > 0 {
      var m: nat := n - 1;
      CardsUnfold(level, ask, loads, m);
      GoodCardsUnfold(level, ask, loads, m);
      CardsAreGoodCards(level, ask, loads, m);
    }
  }

  /**
   * The whole decision of `fetch_english_words_flex`: any exception gives the
   * error text; otherwise no card gives the "no words" text, one card its
   * bubble, and two or more a carousel of all of them in request order.
   */
  lemma FetchReplyCases(difficultyName: string, level: string, count: int, ask: Ask, loads: Loads)
    ensures var n := if count < 0 then 0 else count;
      AnyRaised(level, ask, loads, n) ==>
        FetchReply(difficultyName, level, count, ask, loads) == TextMessage(FetchFailedText)
    ensures var n := if count < 0 then 0 else count;
      !AnyRaised(level, ask, loads, n) && |GoodCards(level, ask, loads, n)| == 0 ==>
        FetchReply(difficultyName, level, count, ask, loads) == TextMessage(NoWordsText)
    ensures var n := if count < 0 then 0 else count;
      !AnyRaised(level, ask, loads, n) && |GoodCards(level, ask, loads, n)| == 1 ==>
        FetchReply(difficultyName, level, count, ask, loads)
          == FlexMessage("英文單字學習 - " + difficultyName, Bubble(GoodCards(level, ask, loads, n)[0]))
    ensures var n := if count < 0 then 0 else count;
      !AnyRaised(level, ask, loads, n) && |GoodCards(level, ask, loads, n)| >= 2 ==>
        FetchReply(difficultyName, level, count, ask, loads)
          == FlexMessage(CarouselAltText(difficultyName, count), Carousel(GoodCards(level, ask, loads, n)))
  {
    var n := if count < 0 then 0 else count;
    CardsRaisedIff(level, ask, loads, n);
    if Cards(level, ask, loads, n).Returned? {
      CardsAreGoodCards(level, ask, loads, n);
    }
  }

  /** When no request but `j` gives word data, the cards are those of reply `j`. */
  lemma {:induction false} GoodCardsSingle(level: string, ask: Ask, loads: Loads, n: nat, j: nat)
    requires j < n
    requires forall i :: 0 <= i < n && i != j ==> CardsOfReply(SingleWordOf(ask(level, i), loads)) == []
    ensures GoodCards(level, ask, loads, n) == CardsOfReply(SingleWordOf(ask(level, j), loads))
  {
    var m: nat := n - 1;
    var single := CardsOfReply(SingleWordOf(ask(level, j), loads));
    if j < m {
      assert GoodCards(level, ask, loads, m + 1) == single by {
        GoodCardsUnfold(level, ask, loads, m);
        GoodCardsSingle(level, ask, loads, m, j);
        assert CardsOfReply(SingleWordOf(ask(level, m), loads)) == [];
      }
    } else {
      assert GoodCards(level, ask, loads, m + 1) == single by {
        GoodCardsUnfold(level, ask, loads, m);
        GoodCardsNone(level, ask, loads, m);
      }
    }
  }

  /** When no request gives word data, there is no card. */
  lemma {:induction false} GoodCardsNone(level: string, ask: Ask, loads: Loads, n: nat)
    requires forall i :: 0 <= i < n ==> CardsOfReply(SingleWordOf(ask(level, i), loads)) == []
    ensures GoodCards(level, ask, loads, n) == []
  {
    if n > 0 {
      var m: nat := n - 1;
      GoodCardsUnfold(level, ask, loads, m);
      GoodCardsNone(level, ask, loads, m);
    }
  }

  /**
   * With no exception and exactly one reply giving word data, the answer is
   * the bubble of that reply's card.
   */
  lemma OneGoodReplyGivesBubble(difficultyName: string, level: string, count: int, ask: Ask, loads: Loads, j: nat)
    requires j < count
    requires forall i :: 0 <= i < count ==> SingleWordOf(ask(level, i), loads).Returned?
    requires SingleWordOf(ask(level, j), loads).value.WordData?
    requires forall i :: 0 <= i < count && i != j ==> SingleWordOf(ask(level, i), loads).value.Apology?
    ensures FetchReply(difficultyName, level, count, ask, loads)
      == FlexMessage("英文單字學習 - " + difficultyName, Bubble(CardOf(SingleWordOf(ask(level, j), loads).value.fields)))
  {
    GoodCardsSingle(level, ask, loads, count, j);
    FetchReplyCases(difficultyName, level, count, ask, loads);
  }

  /** A reply the model gets right: it decodes, as it is or from its braces, to an object. */
  predicate GoodReply(reply: Outcome<string>, loads: Loads) {
    reply.Returned? && ParseReply(reply.value, loads).Some?
    && ParseReply(reply.value, loads).value.DecodedObject?
  }

  /** A good reply becomes word data. */
  lemma GoodReplyGivesWord(reply: Outcome<string>, loads: Loads)
    requires GoodReply(reply, loads)
    ensures SingleWordOf(reply, loads).Returned? && SingleWordOf(reply, loads).value.WordData?
  {
  }

  /** When every request gets a good reply, each one becomes a card. */
  lemma {:induction false} CardsAllGood(level: string, ask: Ask, loads: Loads, n: nat)
    requires forall i :: 0 <= i < n ==> GoodReply(ask(level, i), loads)
    ensures Cards(level, ask, loads, n).Returned? && |Cards(level, ask, loads, n).value| == n
  {
    if n > 0 {
      var m: nat := n - 1;
      CardsAllGood(level, ask, loads, m);
      CardsUnfold(level, ask, loads, m);
      GoodReplyGivesWord(ask(level, m), loads);
    }
  }

  /** When every reply is good and two or more words are asked for, all of them arrive in a carousel. */
  lemma FetchAllGood(difficultyName: string, level: string, count: int, ask: Ask, loads: Loads)
    requires count >= 2
    requires forall i :: 0 <= i < count ==> GoodReply(ask(level, i), loads)
    ensures var m := FetchReply(difficultyName, level, count, ask, loads);
      m.FlexMessage? && m.contents.Carousel? && |m.contents.cards| == count
  {
    CardsAllGood(level, ask, loads, count);
  }

  /** `get_english_words`: an unknown difficulty is answered with text, nothing is asked. */
  function GetEnglishWords(difficultyId: int, count: int, ask: Ask, loads: Loads): Message {
    var key := IntToString(difficultyId);
    if key !in DifficultyLevels then TextMessage("找不到難度代碼：" + IntToString(difficultyId))
    else FetchReply(DifficultyNames[key], DifficultyLevels[key], count, ask, loads)
  }

  /** `str(i)` tells integers apart. */
  lemma IntToStringInjective(a: int, b: int)
    requires IntToString(a) == IntToString(b)
    ensures a == b
  {
    ParseIntOfIntToString(a);
    ParseIntOfIntToString(b);
  }

  /** Exactly the ids 1, 2 and 3 are difficulties; any other id gets the "not found" text. */
  lemma GetEnglishWordsLookup(difficultyId: int, count: int, ask: Ask, loads: Loads)
    ensures IntToString(difficultyId) in DifficultyLevels <==> 1 <= difficultyId <= 3
    ensures !(1 <= difficultyId <= 3) ==>
      GetEnglishWords(difficultyId, count, ask, loads)
        == TextMessage("找不到難度代碼：" + IntToString(difficultyId))
  {
    var key := IntToString(difficultyId);
    assert IntToString(1) == "1" && IntToString(2) == "2" && IntToString(3) == "3";
    if key in DifficultyLevels {
      assert key == "1" || key == "2" || key == "3";
      if key == "1" {
        IntToStringInjective(difficultyId, 1);
      } else if key == "2" {
        IntToStringInjective(difficultyId, 2);
      } else {
        IntToStringInjective(difficultyId, 3);
      }
    }
  }

  /**
   * The request as the feature issues it: `chat_with_groq` is called with a
   * `session_type` keyword it does not declare, so Python raises before the
   * function body runs.
   */
  function AskWithSessionType(level: string, i: nat): Outcome<string> {
    Raised(GroqService.SessionTypeError)
  }

  /** With that call, every request for at least one word ends in the error text. */
  lemma SessionTypeCallAlwaysFails(difficultyName: string, level: string, count: int, loads: Loads)
    requires count >= 1
    ensures FetchReply(difficultyName, level, count, AskWithSessionType, loads) == TextMessage(FetchFailedText)
  {
    assert Cards(level, AskWithSessionType, loads, 1).Raised? by {
      assert Cards(level, AskWithSessionType, loads, 0) == Returned([]);
    }
    CardsStayRaised(level, AskWithSessionType, loads, 1, count);
  }
}
