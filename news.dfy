/**
 * The news command: `"topic/count"` parsing, its range checks, the retry
 * prompt, the unknown-topic reply and the postback payloads of the count menu.
 */
module News {
  import opened Wrappers
  import opened Text

  /** The keys of `TOPICS` and `TOPIC_NAMES`, in order. */
  const TopicKeys: seq<string> := ["1", "2", "3", "4", "5", "6", "7"]

  const TopicNames: seq<string> := ["台灣", "國際", "商業", "科技", "娛樂", "體育", "健康"]

  const TopicUrls: seq<string> := [
    "https://news.google.com/topics/CAAqJQgKIh9DQkFTRVFvSUwyMHZNRFptTXpJU0JYcG9MVlJYS0FBUAE?hl=zh-TW&gl=TW&ceid=TW%3Azh-Hant",
    "https://news.google.com/topics/CAAqKggKIiRDQkFTRlFvSUwyMHZNRGx1YlY4U0JYcG9MVlJYR2dKVVZ5Z0FQAQ?hl=zh-TW&gl=TW&ceid=TW%3Azh-Hant",
    "https://news.google.com/topics/CAAqKggKIiRDQkFTRlFvSUwyMHZNRGx6TVdZU0JYcG9MVlJYR2dKVVZ5Z0FQAQ?hl=zh-TW&gl=TW&ceid=TW%3Azh-Hant",
    "https://news.google.com/topics/CAAqLAgKIiZDQkFTRmdvSkwyMHZNR1ptZHpWbUVnVjZhQzFVVnhvQ1ZGY29BQVAB?hl=zh-TW&gl=TW&ceid=TW%3Azh-Hant",
    "https://news.google.com/topics/CAAqKggKIiRDQkFTRlFvSUwyMHZNREpxYW5RU0JYcG9MVlJYR2dKVVZ5Z0FQAQ?hl=zh-TW&gl=TW&ceid=TW%3Azh-Hant",
    "https://news.google.com/topics/CAAqKggKIiRDQkFTRlFvSUwyMHZNRFp1ZEdvU0JYcG9MVlJYR2dKVVZ5Z0FQAQ?hl=zh-TW&gl=TW&ceid=TW%3Azh-Hant",
    "https://news.google.com/topics/CAAqJQgKIh9DQkFTRVFvSUwyMHZNR3QwTlRFU0JYcG9MVlJYS0FBUAE?hl=zh-TW&gl=TW&ceid=TW%3Azh-Hant"
  ]

  /** The largest article count a user may ask for. */
  const MaxCount: int := 10

  /** Position of `key` among the topic keys, if it is one. */
  function TopicIndex(key: string): (r: Option<nat>)
    ensures r.Some? ==> r.value < |TopicKeys| && TopicKeys[r.value] == key
    ensures r.None? ==> key !in TopicKeys
  {
    if |key| == 1 && '1' <= key[0] <= '7' then
      var k := key[0] as int - '1' as int;
      assert TopicKeys[k] == [DigitChar(k + 1)];
      Some(k)
    else
      assert forall k :: 0 <= k < |TopicKeys| ==> TopicKeys[k] == [DigitChar(k + 1)];
      None
  }

  /**
   * The reply of `get_news`: the "topic not found" text, or
   * `fetch_google_news_flex(TopicNames[topic], TopicUrls[topic], count)`,
   * the fetch of topic number `topic` (counted from 0).
   */
  datatype NewsReply =
    | TopicNotFound(text: string)
    | GoogleNews(topic: nat, count: int)

  /** The arguments `fetch_google_news_flex` receives for a fetch: topic name, feed URL and count. */
  function FetchArguments(r: NewsReply): (args: (string, string, int))
    requires r.GoogleNews? && r.topic < |TopicKeys|
    ensures args.0 == TopicNames[r.topic] && args.2 == r.count
  {
    (TopicNames[r.topic], TopicUrls[r.topic], r.count)
  }

  /** What `handle_news_input` returns beside its flag: news, or the prompt to try again. */
  datatype NewsInput = News(reply: NewsReply) | Prompt(text: string)

  /**
   * `parse_news_format`: split on `/`, require exactly two pieces, strip and
   * convert each with `int()`.
   */
  function ParseNewsFormat(msg: string): (r: Option<(int, int)>)
    ensures r.Some? ==> Count(msg, '/') == 1
  {
    if '/' in msg then
      var parts := Split(msg, '/');
      if |parts| == 2 then
        match (ParseInt(Strip(parts[0])), ParseInt(Strip(parts[1])))
        case (Some(topic), Some(count)) => Some((topic, count))
        case _ => None
      else None
    else None
  }

  /** A message without `/`, or with more than one, is not a topic/count pair. */
  lemma ParseNewsFormatNeedsOneSlash(msg: string)
    requires Count(msg, '/') != 1
    ensures ParseNewsFormat(msg) == None
  {
  }

  /**
   * A message with one `/` is a pair exactly when both sides read as
   * integers with `int()`, and then it is that pair.
   */
  lemma ParseNewsFormatPair(a: string, b: string)
    requires '/' !in a && '/' !in b
    ensures ParseNewsFormat(a + "/" + b).Some? <==> ParseInt(a).Some? && ParseInt(b).Some?
    ensures ParseNewsFormat(a + "/" + b).Some? ==>
      ParseNewsFormat(a + "/" + b).value == (ParseInt(a).value, ParseInt(b).value)
  {
    SplitPair(a, b, '/');
    assert a + "/" + b == a + ['/'] + b;
    assert (a + "/" + b)[|a|] == '/';
    ParseIntOfStrip(a);
    ParseIntOfStrip(b);
  }

  /** `parse_news_format(f"{t}/{c}") == (t, c)` for all integers. */
  lemma ParseNewsFormatRoundTrip(t: int, c: int)
    ensures ParseNewsFormat(IntToString(t) + "/" + IntToString(c)) == Some((t, c))
  {
    var a, b := IntToString(t), IntToString(c);
    IntToStringIsPlain(t, '/');
    IntToStringIsPlain(c, '/');
    SplitPair(a, b, '/');
    assert a + "/" + b == a + ['/'] + b;
    assert (a + "/" + b)[|a|] == '/';
    ParseIntOfIntToString(t);
    ParseIntOfIntToString(c);
  }

  /** `get_news`: an unknown stripped topic id is answered with text and nothing is fetched. */
  function GetNews(topicId: string, count: int): (r: NewsReply)
    ensures r.TopicNotFound? <==> Strip(topicId) !in TopicKeys
    ensures r.TopicNotFound? ==> r.text == "找不到主題代碼：" + Strip(topicId)
    ensures r.GoogleNews? ==>
      r.topic < |TopicKeys| && TopicKeys[r.topic] == Strip(topicId) && r.count == count
  {
    var key := Strip(topicId);
    match TopicIndex(key)
    case None => TopicNotFound("找不到主題代碼：" + key)
    case Some(k) => GoogleNews(k, count)
  }

  const TopicHeader: seq<string> := ["📰 新聞查詢", "格式：主題/數量", "範例：1/5 表示台灣新聞5則", ""]

  const TopicFooter: seq<string> := ["", "💡 數量可選1-10則"]

  /** The menu line of topic `k`: its key, a dot and its name. */
  function TopicLine(k: nat): string
    requires k < |TopicKeys|
  {
    TopicKeys[k] + ". " + TopicNames[k]
  }

  /** The lines of `generate_news_topic_options`, before joining. */
  function TopicOptionLines(): seq<string> {
    TopicHeader + seq(7, k requires 0 <= k < 7 => TopicLine(k)) + TopicFooter
  }

  function TopicOptionsText(): string {
    Join(TopicOptionLines(), "\n")
  }

  /** `generate_news_topic_options`: header lines, one line per topic, the count hint. */
  method GenerateNewsTopicOptions() returns (text: string)
    ensures text == TopicOptionsText()
  {
    var lines := TopicHeader;
    for k := 0 to 7
      invariant lines == TopicHeader + seq(k, j requires 0 <= j < k => TopicLine(j))
    {
      lines := lines + [TopicLine(k)];
    }
    lines := lines + TopicFooter;
    text := Join(lines, "\n");
  }

  /** The prompt has 13 lines and topic `k` is on line `4 + k`. */
  lemma TopicOptionLinesLayout(k: nat)
    requires k < |TopicKeys|
    ensures |TopicOptionLines()| == 13
    ensures TopicOptionLines()[4 + k] == TopicLine(k)
  {
    var middle := seq(7, k requires 0 <= k < 7 => TopicLine(k));
    assert (TopicHeader + middle + TopicFooter)[|TopicHeader| + k] == middle[k];
  }

  /** No line of the prompt holds a line break. */
  lemma TopicOptionLinesAreLines()
    ensures forall j :: 0 <= j < |TopicOptionLines()| ==> '\n' !in TopicOptionLines()[j]
  {
    var lines := TopicOptionLines();
    forall j | 0 <= j < |lines| ensures '\n' !in lines[j] {
      if 4 <= j < 11 {
        var t := j - 4;
        TopicOptionLinesLayout(t);
        assert '\n' !in TopicKeys[t] && '\n' !in TopicNames[t];
      }
    }
  }

  /** The prompt lists every topic as "<key>. <name>" on a line of its own. */
  lemma TopicOptionsListTopics(k: nat)
    requires k < |TopicKeys|
    ensures 4 + k < |Split(TopicOptionsText(), '\n')|
      && Split(TopicOptionsText(), '\n')[4 + k] == TopicKeys[k] + ". " + TopicNames[k]
  {
    TopicOptionLinesLayout(k);
    TopicOptionLinesAreLines();
    SplitJoinAt(TopicOptionLines(), '\n', 4 + k);
  }

  /**
   * `handle_news_input`: the news for a parsed pair within 1..7 and
   * 1..10, otherwise the topic prompt and `False`.
   */
  function HandleNewsInput(msg: string): (r: (NewsInput, bool))
    ensures r.1 <==>
      ParseNewsFormat(msg).Some?
      && 1 <= ParseNewsFormat(msg).value.0 <= 7 && 1 <= ParseNewsFormat(msg).value.1 <= 10
    ensures !r.1 ==> r.0 == Prompt(TopicOptionsText())
  {
    match ParseNewsFormat(msg)
    case Some((topic, count)) =>
      if 1 <= topic <= |TopicKeys| && 1 <= count <= MaxCount then
        (News(GetNews(IntToString(topic), count)), true)
      else (Prompt(TopicOptionsText()), false)
    case None => (Prompt(TopicOptionsText()), false)
  }

  /** An accepted pair `(t, c)` fetches `c` articles of topic `t`, never the "not found" text. */
  lemma HandleNewsInputNews(msg: string)
    requires HandleNewsInput(msg).1
    ensures ParseNewsFormat(msg).Some? && 1 <= ParseNewsFormat(msg).value.0 <= 7
    ensures var (t, c) := ParseNewsFormat(msg).value;
      HandleNewsInput(msg).0 == News(GoogleNews(t - 1, c))
  {
    var (t, c) := ParseNewsFormat(msg).value;
    GetNewsOfTopic(t, c);
  }

  /** The id `str(t)` of topic `t` selects that topic's name and feed. */
  lemma GetNewsOfTopic(t: int, c: int)
    requires 1 <= t <= 7
    ensures GetNews(IntToString(t), c) == GoogleNews(t - 1, c)
  {
    TopicKeyIsIntToString(t);
    TopicIndexOfKey(t - 1);
  }

  lemma TopicIndexOfKey(k: nat)
    requires k < |TopicKeys|
    ensures TopicIndex(TopicKeys[k]) == Some(k)
  {
    if k == 0 {
    } else if k == 1 {
    } else if k == 2 {
    } else if k == 3 {
    } else if k == 4 {
    } else if k == 5 {
    } else {
    }
  }

  lemma TopicKeyIsIntToString(t: int)
    requires 1 <= t <= 7
    ensures IntToString(t) == TopicKeys[t - 1]
    ensures Strip(IntToString(t)) == TopicKeys[t - 1]
  {
    assert IntToString(t) == [DigitChar(t)];
    assert Strip(IntToString(t)) == IntToString(t) by {
      assert !IsSpace(DigitChar(t));
    }
    if t == 1 {
    } else if t == 2 {
    } else if t == 3 {
    } else if t == 4 {
    } else if t == 5 {
    } else if t == 6 {
    } else {
    }
  }

  /** `get_news_count_menu(topic_id)`: the postback data of its ten buttons. */
  method GetNewsCountMenuPayloads(topicId: string) returns (payloads: seq<string>)
    ensures |payloads| == 10
    ensures forall n :: 1 <= n <= 10 ==> payloads[n - 1] == "news_count=" + topicId + "/" + IntToString(n)
  {
    payloads := [];
    for n := 1 to 11
      invariant |payloads| == n - 1
      invariant forall j :: 1 <= j < n ==> payloads[j - 1] == "news_count=" + topicId + "/" + IntToString(j)
    {
      payloads := payloads + ["news_count=" + topicId + "/" + IntToString(n)];
    }
  }

  /** `"<t>/<c>"` with topic 1..7 and count 1..10 fetches `c` articles of topic `t`. */
  lemma AcceptsInRange(t: int, c: int)
    requires 1 <= t <= 7 && 1 <= c <= MaxCount
    ensures HandleNewsInput(IntToString(t) + "/" + IntToString(c))
      == (News(GoogleNews(t - 1, c)), true)
  {
    ParseNewsFormatRoundTrip(t, c);
    GetNewsOfTopic(t, c);
  }

  /** A count above ten, "1/11" say, parses but gets the prompt back. */
  lemma RejectsCountAboveTen(t: int, c: int)
    requires c > MaxCount
    ensures ParseNewsFormat(IntToString(t) + "/" + IntToString(c)) == Some((t, c))
    ensures HandleNewsInput(IntToString(t) + "/" + IntToString(c)) == (Prompt(TopicOptionsText()), false)
  {
    ParseNewsFormatRoundTrip(t, c);
  }

  /** For a real topic every count button carries a pair `handle_news_input` accepts. */
  lemma CountMenuPayloadAccepted(topicId: string, n: int)
    requires topicId in TopicKeys && 1 <= n <= 10
    ensures HandleNewsInput(topicId + "/" + IntToString(n)).1
  {
    var k := TopicIndex(topicId).value;
    TopicKeyIsIntToString(k + 1);
    AcceptsInRange(k + 1, n);
  }

  /** "1/2/3" splits into three pieces and is not a pair. */
  lemma RejectsTwoSlashes()
    ensures ParseNewsFormat("1/2/3") == None
  {
    assert "1/2/3"[1] == '/' && "1/2/3"[3] == '/';
    assert Count("1/2/3", '/') == 2;
    ParseNewsFormatNeedsOneSlash("1/2/3");
  }
}
