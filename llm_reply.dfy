/**
 * What the three word features share: reading the language model's reply as
 * JSON (directly, or else the span from the first `{` to the last `}`),
 * completing the required fields with `""`, and the card a word becomes.
 * `json.loads` is an abstract function.
 */
module LlmReply {
  import opened Wrappers
  import opened Json
  import opened GoogleTts

  /** A successful `json.loads`: an object, or some other JSON value. */
  datatype Decoded = DecodedObject(fields: Object) | DecodedOther

  /** `json.loads`; `None` stands for the `JSONDecodeError`. */
  type Loads = string -> Option<Decoded>

  /** The seven fields of an English word, as both English features require them. */
  const EnglishWordFields: seq<string> := ["word", "pronunciation", "part_of_speech", "definition_en",
                                           "definition_zh", "example_sentence", "example_translation"]

  /** The exception of a field loop when the reply decodes to something other than an object. */
  const NotAnObjectError := "TypeError: word data is not a dict"

  /** Index of the first `c` in `s`. */
  function FirstIndex(s: string, c: char): (r: Option<nat>)
    ensures r.Some? ==> r.value < |s| && s[r.value] == c && c !in s[..r.value]
    ensures r.None? ==> c !in s
  {
    if s == [] then None
    else if s[0] == c then Some(0)
    else match FirstIndex(s[1..], c)
      case None => None
      case Some(i) =>
        assert s[..i + 1] == [s[0]] + s[1..][..i];
        Some(i + 1)
  }

  /** Index of the last `c` in `s`. */
  function LastIndex(s: string, c: char): (r: Option<nat>)
    ensures r.Some? ==> r.value < |s| && s[r.value] == c && c !in s[r.value + 1..]
    ensures r.None? ==> c !in s
  {
    if s == [] then None
    else if s[|s| - 1] == c then Some(|s| - 1)
    else
      var r := LastIndex(s[..|s| - 1], c);
      if r.Some? then
        assert s[r.value + 1..] == s[..|s| - 1][r.value + 1..] + [s[|s| - 1]];
        r
      else None
  }

  /**
   * The match of `re.search(r'(\{.*\})', s, re.DOTALL)`: the bounds of the
   * span from the first `{` to the last `}`, when that `}` comes after it.
   */
  function BraceSpan(s: string): (r: Option<(nat, nat)>)
    ensures r.Some? ==> r.value.0 < r.value.1 < |s|
    ensures r.Some? ==> s[r.value.0] == '{' && '{' !in s[..r.value.0]
    ensures r.Some? ==> s[r.value.1] == '}' && '}' !in s[r.value.1 + 1..]
  {
    match (FirstIndex(s, '{'), LastIndex(s, '}'))
    case (Some(i), Some(j)) => if i < j then Some((i, j)) else None
    case _ => None
  }

  /** The regular expression matches exactly when some `{` precedes some `}`. */
  lemma BraceSpanExists(s: string)
    ensures BraceSpan(s).Some? <==>
      exists i, j :: 0 <= i < j < |s| && s[i] == '{' && s[j] == '}'
  {
    if exists i, j :: 0 <= i < j < |s| && s[i] == '{' && s[j] == '}' {
      var i, j :| 0 <= i < j < |s| && s[i] == '{' && s[j] == '}';
      assert s[..i + 1][i] == '{';
      assert s[j..][0] == '}';
    }
  }

  /** The span is the longest one: it holds every `{...}` span of the reply. */
  lemma BraceSpanIsWidest(s: string, i: nat, j: nat)
    requires i < j < |s| && s[i] == '{' && s[j] == '}'
    ensures BraceSpan(s).Some?
    ensures BraceSpan(s).value.0 <= i && j <= BraceSpan(s).value.1
  {
    BraceSpanExists(s);
  }

  /**
   * The `try` around `json.loads`: the reply itself when it decodes, else the
   * brace span when there is one; `None` stands for any exception there.
   */
  function ParseReply(reply: string, loads: Loads): (r: Option<Decoded>)
    ensures loads(reply).Some? ==> r == loads(reply)
    ensures loads(reply).None? && BraceSpan(reply).None? ==> r.None?
    ensures loads(reply).None? && BraceSpan(reply).Some? ==>
      r == loads(reply[BraceSpan(reply).value.0..BraceSpan(reply).value.1 + 1])
  {
    match loads(reply)
    case Some(d) => Some(d)
    case None =>
      match BraceSpan(reply)
      case None => None
      case Some((i, j)) => loads(reply[i..j + 1])
  }

  /** A reply wrapped in chatter, `prefix + body + suffix`, is read from its braces. */
  lemma ParseWrappedReply(prefix: string, body: string, suffix: string, loads: Loads)
    requires '{' !in prefix && '}' !in suffix
    requires |body| >= 2 && body[0] == '{' && body[|body| - 1] == '}'
    requires loads(prefix + body + suffix).None?
    ensures ParseReply(prefix + body + suffix, loads) == loads(body)
  {
    var s := prefix + body + suffix;
    var i, j := |prefix|, |prefix| + |body| - 1;
    assert s[i] == '{' && s[j] == '}';
    BraceSpanIsWidest(s, i, j);
    assert s[i..j + 1] == body;
  }

  /** The required fields of a word, as a set. */
  function FieldSet(required: seq<string>): set<string> {
    set f | f in required
  }

  /**
   * The word data after the field loop: every present value untouched and
   * every missing required field set to `""`.
   */
  function Completed(data: Object, required: seq<string>): (r: Object)
    ensures r.Keys == data.Keys + FieldSet(required)
    ensures forall k :: k in data ==> r[k] == data[k]
    ensures forall f :: f in required && f !in data ==> r[f] == JStr("")
  {
    map k | k in data.Keys + FieldSet(required) :: if k in data then data[k] else JStr("")
  }

  /** `for field in required_fields: if field not in word_data: word_data[field] = ""`. */
  method CompleteFields(data: Object, required: seq<string>) returns (wordData: Object)
    ensures wordData == Completed(data, required)
  {
    wordData := data;
    for n := 0 to |required|
      invariant wordData.Keys == data.Keys + FieldSet(required[..n])
      invariant forall k :: k in data ==> wordData[k] == data[k]
      invariant forall k :: k in wordData && k !in data ==> wordData[k] == JStr("")
    {
      if required[n] !in wordData {
        wordData := wordData[required[n] := JStr("")];
      }
      assert FieldSet(required[..n + 1]) == FieldSet(required[..n]) + {required[n]} by {
        assert required[..n + 1] == required[..n] + [required[n]];
      }
    }
    assert required[..|required|] == required;
  }

  /** Completing twice is completing once. */
  lemma CompletedIdempotent(data: Object, required: seq<string>)
    ensures Completed(Completed(data, required), required) == Completed(data, required)
  {
  }

  /** Data that already has every required field is returned as it is. */
  lemma CompletedKeepsFullData(data: Object, required: seq<string>)
    requires forall f :: f in required ==> f in data
    ensures Completed(data, required) == data
  {
  }

  /** A word card: the completed fields and the two pronunciation links. */
  datatype WordCard = WordCard(fields: Object, wordAudio: string, exampleAudio: string)

  /**
   * The links of a card: `generate_audio_url` of the word and of the example
   * sentence, each inside its own `try` that falls back to `""`.
   */
  function CardOf(fields: Object): (c: WordCard)
    requires "word" in fields && "example_sentence" in fields
    ensures c.fields == fields
    ensures c.wordAudio != "" <==> fields["word"].JStr? && fields["word"].s != ""
    ensures c.exampleAudio != "" <==>
      fields["example_sentence"].JStr? && fields["example_sentence"].s != ""
    ensures c.wordAudio != "" ==> c.wordAudio == TtsPrefix + Quote(fields["word"].s)
  {
    WordCard(fields, AudioUrlOf(fields["word"]), AudioUrlOf(fields["example_sentence"]))
  }

  /** A LINE message as far as the bot's replies go: plain text or a flex message. */
  datatype FlexContents = Bubble(card: WordCard) | Carousel(cards: seq<WordCard>)

  datatype Message = TextMessage(text: string) | FlexMessage(altText: string, contents: FlexContents)
}
