/**
 * `chat_with_groq`: the per-user conversation histories kept in
 * `user_sessions`, around a call to the chat-completion API, which is an
 * abstract function of the history sent and the model name.
 */
module GroqService {
  import opened Wrappers

  datatype Role = System | User | Assistant

  datatype ChatMessage = ChatMessage(role: Role, content: string)

  /** The message every new history starts with. */
  const SystemPrompt := ChatMessage(System, "你是一個說中文的LINE聊天機器人")

  const DefaultModel := "llama-3.3-70b-versatile"

  /** `client.chat.completions.create(...).choices[0].message.content`, or the exception it raises. */
  type ChatApi = (seq<ChatMessage>, string) -> Outcome<string>

  type Sessions = map<string, seq<ChatMessage>>

  /**
   * What Python raises when `chat_with_groq` is called with a `session_type`
   * keyword, which its signature does not declare.
   */
  const SessionTypeError := "TypeError: chat_with_groq() got an unexpected keyword argument 'session_type'"

  /** The history of `u` before the call: the stored one, or a fresh one holding the system prompt. */
  function HistoryOf(sessions: Sessions, u: string): seq<ChatMessage> {
    if u in sessions then sessions[u] else [SystemPrompt]
  }

  /** The whole history sent to the API: the earlier messages and then the new user message. */
  function Sent(sessions: Sessions, u: string, message: string): (h: seq<ChatMessage>)
    ensures |h| == |HistoryOf(sessions, u)| + 1
    ensures h[..|h| - 1] == HistoryOf(sessions, u) && h[|h| - 1] == ChatMessage(User, message)
  {
    HistoryOf(sessions, u) + [ChatMessage(User, message)]
  }

  /**
   * The histories after the call: the user's history holds the new message,
   * followed by the reply when the API answered; no other history changes.
   */
  function AfterChat(sessions: Sessions, u: string, message: string, reply: Outcome<string>): (r: Sessions)
    ensures r.Keys == sessions.Keys + {u}
    ensures forall v :: v in sessions && v != u ==> r[v] == sessions[v]
    ensures |r[u]| == |HistoryOf(sessions, u)| + (if reply.Returned? then 2 else 1)
    ensures r[u][..|HistoryOf(sessions, u)|] == HistoryOf(sessions, u)
    ensures r[u][|HistoryOf(sessions, u)|] == ChatMessage(User, message)
    ensures reply.Returned? ==> r[u][|r[u]| - 1] == ChatMessage(Assistant, reply.value)
  {
    var sent := Sent(sessions, u, message);
    sessions[u := if reply.Returned? then sent + [ChatMessage(Assistant, reply.value)] else sent]
  }

  /**
   * The shape every history keeps: the system prompt first and nowhere
   * else, and every assistant message right after a user message.
   */
  ghost predicate WellFormedHistory(h: seq<ChatMessage>) {
    |h| >= 1 && h[0] == SystemPrompt
    && (forall k :: 1 <= k < |h| ==> h[k].role != System)
    && (forall k :: 1 <= k < |h| && h[k].role == Assistant ==> h[k - 1].role == User)
  }

  ghost predicate WellFormed(sessions: Sessions) {
    forall u :: u in sessions ==> WellFormedHistory(sessions[u])
  }

  /** Appending a non-system message keeps a history well formed, if an answer follows a question. */
  lemma AppendWellFormed(h: seq<ChatMessage>, m: ChatMessage)
    requires WellFormedHistory(h)
    requires m.role != System
    requires m.role == Assistant ==> h[|h| - 1].role == User
    ensures WellFormedHistory(h + [m])
  {
    var g := h + [m];
    forall k | 1 <= k < |g| ensures g[k].role != System {
      if k < |h| { assert g[k] == h[k]; }
    }
    forall k | 1 <= k < |g| && g[k].role == Assistant ensures g[k - 1].role == User {
      assert g[k - 1] == h[k - 1];
      if k < |h| { assert g[k] == h[k]; }
    }
  }

  /** A call keeps every history well formed, whatever the API does. */
  lemma AfterChatWellFormed(sessions: Sessions, u: string, message: string, reply: Outcome<string>)
    requires WellFormed(sessions)
    ensures WellFormed(AfterChat(sessions, u, message, reply))
  {
    var h := HistoryOf(sessions, u);
    assert WellFormedHistory(h);
    var sent := h + [ChatMessage(User, message)];
    AppendWellFormed(h, ChatMessage(User, message));
    if reply.Returned? {
      AppendWellFormed(sent, ChatMessage(Assistant, reply.value));
    }
  }

  /** A first successful call leaves exactly the system prompt, the question and the answer. */
  lemma FirstChat(sessions: Sessions, u: string, message: string, answer: string)
    requires u !in sessions
    ensures AfterChat(sessions, u, message, Returned(answer))[u]
      == [SystemPrompt, ChatMessage(User, message), ChatMessage(Assistant, answer)]
  {
  }

  /** `user_sessions` and the call that updates it. */
  class ChatSessions {
    var sessions: Sessions

    ghost predicate Valid()
      reads this
    {
      WellFormed(sessions)
    }

    constructor ()
      ensures sessions == map[] && Valid()
    {
      sessions := map[];
    }

    /**
     * `chat_with_groq(user_id, message, model)`: the API sees the stored
     * history plus the new message; the reply, if any, is stored after it.
     */
    method ChatWithGroq(userId: string, message: string, model: string, api: ChatApi)
      returns (reply: Outcome<string>)
      requires Valid()
      modifies this
      ensures reply == api(Sent(old(sessions), userId, message), model)
      ensures sessions == AfterChat(old(sessions), userId, message, reply)
      ensures Valid()
    {
      var history := if userId in sessions then sessions[userId] else [SystemPrompt];
      history := history + [ChatMessage(User, message)];
      sessions := sessions[userId := history];
      reply := api(history, model);
      if reply.Returned? {
        history := history + [ChatMessage(Assistant, reply.value)];
        sessions := sessions[userId := history];
      }
      AfterChatWellFormed(old(sessions), userId, message, reply);
    }
  }
}
