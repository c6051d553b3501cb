/** Conversation ids of Telegram topics and Feishu chats
    (src/acp/conversation-id.ts, extensions/feishu/src/conversation-id.ts). */
module Conversations {
  import opened Text
  import opened SessionKeys

  // ---- Telegram ----

  predicate Digits(s: string) { s != "" && AllDigits(s) }

  predicate SignedDigits(s: string) { Digits(s) || (s != "" && s[0] == '-' && Digits(s[1..])) }

  datatype TelegramTopic = TelegramTopic(chatId: string, topicId: string)

  function TelegramId(t: TelegramTopic): string { t.chatId + ":topic:" + t.topicId }

  /** The id itself, or the id as a topic of the parent chat. */
  function ParseTelegram(conversationId: string, parentConversationId: string): (r: Option<TelegramTopic>)
    ensures r.Some? ==> SignedDigits(r.value.chatId) && Digits(r.value.topicId)
  {
    var conversation, parent := TrimJs(conversationId), TrimJs(parentConversationId);
    var at := IndexFrom(conversation, ":topic:", 0);
    if at.Some? && SignedDigits(conversation[..at.value]) && Digits(conversation[at.value + 7..]) then
      Some(TelegramTopic(conversation[..at.value], conversation[at.value + 7..]))
    else if Digits(conversation) && SignedDigits(parent) then
      Some(TelegramTopic(parent, conversation))
    else None
  }

  lemma SignedDigitsFree(s: string)
    requires SignedDigits(s)
    ensures ':' !in s
  {
    if !Digits(s) {
      assert s == [s[0]] + s[1..];
      assert forall i | 1 <= i < |s| :: s[i] == s[1..][i - 1];
    }
  }

  lemma FirstTopic(a: string, b: string)
    requires ':' !in a
    ensures IndexFrom(a + ":topic:" + b, ":topic:", 0) == Some(|a|)
  {
    var s := a + ":topic:" + b;
    assert At(s, ":topic:", |a|);
    assert forall i: nat | i < |a| :: s[i] == a[i] != ':';
    forall i: nat | i < |a| ensures !At(s, ":topic:", i) {
      assert s[i] != ":topic:"[0];
    }
  }

  /** The canonical id determines the chat and the topic. */
  lemma TelegramIdInjective(x: TelegramTopic, y: TelegramTopic)
    requires SignedDigits(x.chatId) && SignedDigits(y.chatId) && TelegramId(x) == TelegramId(y)
    ensures x == y
  {
    SignedDigitsFree(x.chatId);
    SignedDigitsFree(y.chatId);
    FirstTopic(x.chatId, x.topicId);
    FirstTopic(y.chatId, y.topicId);
    assert x.chatId == TelegramId(x)[..|x.chatId|] && y.chatId == TelegramId(y)[..|y.chatId|];
    assert x.topicId == TelegramId(x)[|x.chatId| + 7..] && y.topicId == TelegramId(y)[|y.chatId| + 7..];
  }

  /** Parsing the canonical id gives the topic back. */
  lemma TelegramRoundTrip(t: TelegramTopic)
    requires SignedDigits(t.chatId) && Digits(t.topicId)
    ensures ParseTelegram(TelegramId(t), "") == Some(t)
  {
    var s := TelegramId(t);
    SignedDigitsFree(t.chatId);
    FirstTopic(t.chatId, t.topicId);
    assert s[0] == t.chatId[0] && s[|s| - 1] == t.topicId[|t.topicId| - 1];
    TrimSolid(s);
    assert s[..|t.chatId|] == t.chatId && s[|t.chatId| + 7..] == t.topicId;
  }

  /** Just two forms are read: the id of a topic, and a bare topic number with a
      chat for parent. */
  lemma TelegramReads(conversation: string, parent: string)
    requires TrimJs(conversation) == conversation && TrimJs(parent) == parent
    ensures Digits(conversation) && SignedDigits(parent) ==>
              ParseTelegram(conversation, parent) == Some(TelegramTopic(parent, conversation))
    ensures forall t | conversation == TelegramId(t) && SignedDigits(t.chatId) && Digits(t.topicId) ::
              ParseTelegram(conversation, parent) == Some(t)
    ensures var r := ParseTelegram(conversation, parent);
            r.Some? ==> conversation == TelegramId(r.value)
                        || (conversation == r.value.topicId && parent == r.value.chatId)
  {
    hide TrimJs;
    var at := IndexFrom(conversation, ":topic:", 0);
    if at.Some? {
      assert conversation[at.value..at.value + 7] == ":topic:";
      assert conversation == conversation[..at.value] + ":topic:" + conversation[at.value + 7..];
      assert conversation[at.value] == ':' && !IsDigit(':');
    }
    forall t | conversation == TelegramId(t) && SignedDigits(t.chatId) && Digits(t.topicId)
      ensures ParseTelegram(conversation, parent) == Some(t)
    {
      SignedDigitsFree(t.chatId);
      FirstTopic(t.chatId, t.topicId);
      assert conversation[..|t.chatId|] == t.chatId && conversation[|t.chatId| + 7..] == t.topicId;
    }
  }

  // ---- Feishu ----

  datatype Scope = Group | GroupSender | GroupTopic | GroupTopicSender

  datatype FeishuConversation = FeishuConversation(canonicalId: string, chatId: string, topicId: string,
                                                   senderId: string, scope: Scope)

  /** Absent and blank components are both the empty string. */
  function FeishuId(chatId: string, topicId: string, senderId: string): string {
    var chat := if TrimJs(chatId) == "" then "unknown" else TrimJs(chatId);
    chat + (if TrimJs(topicId) == "" then "" else ":topic:" + TrimJs(topicId))
         + (if TrimJs(senderId) == "" then "" else ":sender:" + TrimJs(senderId))
  }

  datatype Tail = Tail(head: string, last: string)

  /** A blank chat is the chat called unknown. */
  lemma UnknownChat(chatId: string, topicId: string, senderId: string)
    requires TrimJs(chatId) == ""
    ensures FeishuId(chatId, topicId, senderId) == FeishuId("unknown", topicId, senderId)
  {
    assert TrimJs("unknown") == "unknown";
  }

  function LastColon(s: string): (r: Option<nat>)
    ensures r.None? ==> forall i | 0 <= i < |s| :: s[i] != ':'
    ensures r.Some? ==> r.value < |s| && s[r.value] == ':' && forall i | r.value < i < |s| :: s[i] != ':'
  {
    if s == "" then None
    else if s[|s| - 1] == ':' then Some(|s| - 1)
    else LastColon(s[..|s| - 1])
  }

  /** A match of `^(.+)MID([^:]+)$`, where MID ends in a colon. */
  function MatchTail(s: string, mid: string): (r: Option<Tail>)
    requires mid != ""
  {
    var at := LastColon(s);
    if at.None? || at.value + 1 == |s| then None
    else
      var k := at.value + 1 - |mid|;
      if k <= 0 || s[k..at.value + 1] != mid then None
      else Some(Tail(s[..k], s[at.value + 1..]))
  }

  predicate LineTerminator(c: char) { c == '\n' || c == '\r' || c == 0x2028 as char || c == 0x2029 as char }

  /** What `.+` matches. */
  predicate OneLine(s: string) { s != "" && forall i | 0 <= i < |s| :: !LineTerminator(s[i]) }

  function ParseFeishu(conversationId: string, parentConversationId: string): Option<FeishuConversation> {
    var conversation, parent := TrimJs(conversationId), TrimJs(parentConversationId);
    if conversation == "" then None
    else
      var sender := MatchTail(conversation, ":sender:");
      var topicSender := if sender.Some? then MatchTail(sender.value.head, ":topic:") else None;
      var topic := MatchTail(conversation, ":topic:");
      if topicSender.Some? && OneLine(topicSender.value.head) then
        var t := topicSender.value;
        Some(FeishuConversation(FeishuId(t.head, t.last, sender.value.last), t.head, t.last, sender.value.last,
                                GroupTopicSender))
      else if topic.Some? && OneLine(topic.value.head) then
        Some(FeishuConversation(FeishuId(topic.value.head, topic.value.last, ""), topic.value.head, topic.value.last,
                                "", GroupTopic))
      else if sender.Some? && OneLine(sender.value.head) then
        Some(FeishuConversation(FeishuId(sender.value.head, "", sender.value.last), sender.value.head, "",
                                sender.value.last, GroupSender))
      else if parent != "" then
        Some(FeishuConversation(FeishuId(parent, conversation, ""), parent, conversation, "", GroupTopic))
      else Some(FeishuConversation(conversation, conversation, "", "", Group))
  }

  /** Parsing the canonical id gives the conversation back. */
  predicate Coherent(c: FeishuConversation) { ParseFeishu(c.canonicalId, "") == Some(c) }

  lemma MatchTailAt(head: string, mid: string, last: string)
    requires head != "" && mid != "" && mid[|mid| - 1] == ':' && last != "" && ':' !in last
    ensures MatchTail(head + mid + last, mid) == Some(Tail(head, last))
  {
    var s := head + mid + last;
    var at := |head| + |mid| - 1;
    assert s[at] == mid[|mid| - 1] == ':';
    assert forall i | at < i < |s| :: s[i] == last[i - at - 1];
    assert s[|head|..at + 1] == mid && s[..|head|] == head && s[at + 1..] == last;
  }

  /** After a topic there is no sender. */
  lemma TopicIsNotSender(head: string, last: string)
    requires last != "" && ':' !in last
    ensures MatchTail(head + ":topic:" + last, ":sender:") == None
  {
    var s := head + ":topic:" + last;
    var at := |head| + 6;
    assert s[at] == ':' && s[at - 6] == ':';
    assert forall i | at < i < |s| :: s[i] == last[i - at - 1];
    if at >= 8 {
      assert s[at - 7..at + 1][1] == s[at - 6] == ':';
    }
  }

  predicate Tidy(s: string) { s == "" || (TrimJs(s) == s && !JsSpace(s[0]) && !JsSpace(s[|s| - 1]) && ':' !in s) }

  function ScopeOf(topicId: string, senderId: string): Scope {
    if topicId != "" && senderId != "" then GroupTopicSender
    else if topicId != "" then GroupTopic
    else if senderId != "" then GroupSender
    else Group
  }

  lemma SenderIsNotTopic(head: string, last: string)
    requires last != "" && ':' !in last
    ensures MatchTail(head + ":sender:" + last, ":topic:") == None
  {
    var s := head + ":sender:" + last;
    var at := |head| + 7;
    assert s[at] == ':' && s[at - 6] == 's';
    assert forall i | at < i < |s| :: s[i] == last[i - at - 1];
    assert s[at - 6..at + 1][0] == 's';
  }

  lemma NoColonNoMatch(s: string, mid: string)
    requires mid != "" && ':' !in s
    ensures MatchTail(s, mid) == None
  {
  }

  lemma ParsesTopicSender(chatId: string, topicId: string, senderId: string, s: string)
    requires OneLine(chatId) && topicId != "" && ':' !in topicId && senderId != "" && ':' !in senderId
    requires s == (chatId + ":topic:" + topicId) + ":sender:" + senderId && TrimJs(s) == s
    ensures ParseFeishu(s, "")
         == Some(FeishuConversation(FeishuId(chatId, topicId, senderId), chatId, topicId, senderId, GroupTopicSender))
  {
    MatchTailAt(chatId, ":topic:", topicId);
    MatchTailAt(chatId + ":topic:" + topicId, ":sender:", senderId);
    hide TrimJs, MatchTail, FeishuId;
  }

  lemma ParsesTopic(chatId: string, topicId: string, s: string)
    requires OneLine(chatId) && topicId != "" && ':' !in topicId
    requires s == chatId + ":topic:" + topicId && TrimJs(s) == s
    ensures ParseFeishu(s, "")
            == Some(FeishuConversation(FeishuId(chatId, topicId, ""), chatId, topicId, "", GroupTopic))
  {
    MatchTailAt(chatId, ":topic:", topicId);
    TopicIsNotSender(chatId, topicId);
    hide TrimJs, MatchTail, FeishuId;
  }

  lemma ParsesSender(chatId: string, senderId: string, s: string)
    requires OneLine(chatId) && MatchTail(chatId, ":topic:").None? && senderId != "" && ':' !in senderId
    requires s == chatId + ":sender:" + senderId && TrimJs(s) == s
    ensures ParseFeishu(s, "")
         == Some(FeishuConversation(FeishuId(chatId, "", senderId), chatId, "", senderId, GroupSender))
  {
    MatchTailAt(chatId, ":sender:", senderId);
    SenderIsNotTopic(chatId, senderId);
    hide TrimJs, MatchTail, FeishuId;
  }

  lemma ParsesGroup(chatId: string)
    requires chatId != "" && ':' !in chatId && TrimJs(chatId) == chatId
    ensures ParseFeishu(chatId, "") == Some(FeishuConversation(chatId, chatId, "", "", Group))
  {
    NoColonNoMatch(chatId, ":topic:");
    NoColonNoMatch(chatId, ":sender:");
    TrimSolid("");
    hide TrimJs, MatchTail;
  }

  /** An id without a colon is a topic of the parent, or else a chat. */
  lemma ParsesBare(conversation: string, parent: string)
    requires conversation != "" && ':' !in conversation
    requires TrimJs(conversation) == conversation && TrimJs(parent) == parent
    ensures ParseFeishu(conversation, parent) == Some(
              if parent != "" then
                FeishuConversation(FeishuId(parent, conversation, ""), parent, conversation, "", GroupTopic)
              else FeishuConversation(conversation, conversation, "", "", Group))
  {
    NoColonNoMatch(conversation, ":topic:");
    NoColonNoMatch(conversation, ":sender:");
    hide TrimJs, MatchTail, FeishuId;
  }

  /** An id that says its scope is read alike under every parent. */
  lemma ParentIgnored(conversation: string, parent: string)
    requires ParseFeishu(conversation, "").Some? && !ParseFeishu(conversation, "").value.scope.Group?
    ensures ParseFeishu(conversation, parent) == ParseFeishu(conversation, "")
  {
    TrimSolid("");
    hide TrimJs, MatchTail, FeishuId;
  }

  /** Ids built from components without colons or outer spaces are coherent. */
  lemma FeishuRoundTrip(chatId: string, topicId: string, senderId: string)
    requires OneLine(chatId) && Tidy(chatId) && Tidy(topicId) && Tidy(senderId)
    ensures ParseFeishu(FeishuId(chatId, topicId, senderId), "")
         == Some(FeishuConversation(FeishuId(chatId, topicId, senderId), chatId, topicId, senderId,
                                    ScopeOf(topicId, senderId)))
  {
    var s := FeishuId(chatId, topicId, senderId);
    FeishuIdOfTidy(chatId, topicId, senderId);
    hide TrimJs, FeishuId, ParseFeishu;
    if topicId != "" && senderId != "" {
      ParsesTopicSender(chatId, topicId, senderId, s);
    } else if topicId != "" {
      ParsesTopic(chatId, topicId, s);
    } else if senderId != "" {
      NoColonNoMatch(chatId, ":topic:");
      ParsesSender(chatId, senderId, s);
    } else {
      ParsesGroup(chatId);
    }
  }

  // ---- topics with outer spaces ----

  lemma MatchTailParts(s: string, mid: string)
    requires mid != "" && mid[|mid| - 1] == ':' && MatchTail(s, mid).Some?
    ensures var Tail(head, last) := MatchTail(s, mid).value;
            s == head + mid + last && head != "" && last != "" && ':' !in last
  {
    var at := LastColon(s).value;
    var k := at + 1 - |mid|;
    assert s == s[..k] + s[k..at + 1] + s[at + 1..];
  }

  /** What a topic's id looks like. */
  lemma TopicParts(id: string, c: FeishuConversation)
    requires ParseFeishu(id, "") == Some(c) && c.scope.GroupTopic?
    ensures TrimJs(id) == c.chatId + ":topic:" + c.topicId && c.canonicalId == FeishuId(c.chatId, c.topicId, "")
    ensures OneLine(c.chatId) && c.topicId != "" && ':' !in c.topicId && c.senderId == ""
  {
    hide FeishuId, MatchTail;
    TrimSolid("");
    MatchTailParts(TrimJs(id), ":topic:");
    hide TrimJs;
  }

  lemma {:induction false} TrimRightStops(s: string)
    requires s != "" && !JsSpace(s[0])
    ensures TrimRight(s, JsSpace) != ""
  {
    if JsSpace(s[|s| - 1]) {
      TrimRightStops(s[..|s| - 1]);
    } else {
      assert TrimRight(s, JsSpace) == s;
    }
  }

  /** Something is left of a text that does not begin, or does not end, in a space. */
  lemma {:induction false} TrimLeaves(s: string)
    requires s != "" && (!JsSpace(s[0]) || !JsSpace(s[|s| - 1]))
    ensures TrimJs(s) != ""
  {
    if !JsSpace(s[0]) {
      TrimRightStops(s);
      assert TrimLeft(s, JsSpace) == s;
    } else {
      TrimLeaves(s[1..]);
      assert TrimJs(s) == TrimJs(s[1..]);
    }
  }

  lemma TrimEnds(s: string)
    ensures var r := TrimJs(s); r == "" || (!JsSpace(r[0]) && !JsSpace(r[|r| - 1]))
    ensures forall c | c in TrimJs(s) :: c in s
  {
    TrimLeftParts(s, JsSpace);
    TrimRightParts(TrimLeft(s, JsSpace), JsSpace);
  }

  lemma OneLineTrimmed(s: string)
    requires OneLine(s) && TrimJs(s) != ""
    ensures OneLine(TrimJs(s))
  {
    TrimEnds(s);
    hide TrimJs, LineTerminator;
    var r := TrimJs(s);
    forall i | 0 <= i < |r| ensures !LineTerminator(r[i]) { assert r[i] in s; }
  }

  /** What begins with a trimmed text and ends with one is trimmed. */
  lemma TrimmedAround(first: string, middle: string, last: string)
    requires TrimJs(first) != "" && TrimJs(last) != ""
    ensures var s := TrimJs(first) + middle + TrimJs(last); TrimJs(s) == s
  {
    TrimEnds(first);
    TrimEnds(last);
    var a, b := TrimJs(first), TrimJs(last);
    var s := a + middle + b;
    assert s[0] == a[0] && s[|s| - 1] == b[|b| - 1];
    TrimSolid(s);
  }

  /** The ends of a trimmed text have something beside spaces. */
  lemma EndsAreLeft(id: string, first: string, middle: string, last: string)
    requires TrimJs(id) == first + middle + last && first != "" && last != ""
    ensures TrimJs(first) != "" && TrimJs(last) != ""
  {
    var s := first + middle + last;
    TrimEnds(id);
    assert s[0] == first[0] && s[|s| - 1] == last[|last| - 1];
    TrimLeaves(first);
    TrimLeaves(last);
  }

  /** The canonical id of a topic names the same topic, without outer spaces. */
  lemma TopicReparses(id: string, c: FeishuConversation)
    requires ParseFeishu(id, "") == Some(c) && c.scope.GroupTopic?
    ensures ParseFeishu(c.canonicalId, "")
         == Some(FeishuConversation(c.canonicalId, TrimJs(c.chatId), TrimJs(c.topicId), "", GroupTopic))
  {
    hide ParseFeishu, JsSpace, LineTerminator;
    TopicParts(id, c);
    var chat, topic := TrimJs(c.chatId), TrimJs(c.topicId);
    EndsAreLeft(id, c.chatId, ":topic:", c.topicId);
    OneLineTrimmed(c.chatId);
    TrimEnds(c.topicId);
    TrimTwice(c.chatId);
    TrimTwice(c.topicId);
    TrimSolid("");
    TrimmedAround(c.chatId, ":topic:", c.topicId);
    hide TrimJs;
    assert c.canonicalId == chat + ":topic:" + topic;
    ParsesTopic(chat, topic, c.canonicalId);
  }

  /** What the id of a sender in a topic looks like. */
  lemma TopicSenderParts(id: string, c: FeishuConversation)
    requires ParseFeishu(id, "") == Some(c) && c.scope.GroupTopicSender?
    ensures TrimJs(id) == (c.chatId + ":topic:" + c.topicId) + ":sender:" + c.senderId
    ensures c.canonicalId == FeishuId(c.chatId, c.topicId, c.senderId)
    ensures OneLine(c.chatId) && c.topicId != "" && ':' !in c.topicId && c.senderId != "" && ':' !in c.senderId
  {
    hide FeishuId, MatchTail;
    TrimSolid("");
    MatchTailParts(TrimJs(id), ":sender:");
    MatchTailParts(MatchTail(TrimJs(id), ":sender:").value.head, ":topic:");
    hide TrimJs;
  }

  lemma TopicSenderReparses(id: string, c: FeishuConversation)
    requires ParseFeishu(id, "") == Some(c) && c.scope.GroupTopicSender? && TrimJs(c.topicId) != ""
    ensures ParseFeishu(c.canonicalId, "")
         == Some(FeishuConversation(c.canonicalId, TrimJs(c.chatId), TrimJs(c.topicId), TrimJs(c.senderId),
                                    GroupTopicSender))
  {
    hide ParseFeishu, JsSpace, LineTerminator;
    TopicSenderParts(id, c);
    var chat, topic, sender := TrimJs(c.chatId), TrimJs(c.topicId), TrimJs(c.senderId);
    assert TrimJs(id) == c.chatId + (":topic:" + c.topicId + ":sender:") + c.senderId;
    EndsAreLeft(id, c.chatId, ":topic:" + c.topicId + ":sender:", c.senderId);
    OneLineTrimmed(c.chatId);
    TrimEnds(c.topicId);
    TrimEnds(c.senderId);
    TrimTwice(c.chatId);
    TrimTwice(c.topicId);
    TrimTwice(c.senderId);
    TrimmedAround(c.chatId, ":topic:" + topic + ":sender:", c.senderId);
    hide TrimJs;
    assert c.canonicalId == (chat + ":topic:" + topic) + ":sender:" + sender;
    assert c.canonicalId == chat + (":topic:" + topic + ":sender:") + sender;
    ParsesTopicSender(chat, topic, sender, c.canonicalId);
  }

  lemma FeishuIdOfTidy(chatId: string, topicId: string, senderId: string)
    requires chatId != "" && Tidy(chatId) && Tidy(topicId) && Tidy(senderId)
    ensures var s := FeishuId(chatId, topicId, senderId);
            && s != "" && TrimJs(s) == s
            && s == chatId + (if topicId == "" then "" else ":topic:" + topicId)
                           + (if senderId == "" then "" else ":sender:" + senderId)
            && (topicId != "" && senderId != "" ==> s == (chatId + ":topic:" + topicId) + ":sender:" + senderId)
            && (topicId != "" && senderId == "" ==> s == chatId + ":topic:" + topicId)
            && (topicId == "" && senderId != "" ==> s == chatId + ":sender:" + senderId)
            && (topicId == "" && senderId == "" ==> s == chatId)
  {
    var s := FeishuId(chatId, topicId, senderId);
    assert s[0] == chatId[0];
    TrimSolid(s);
  }
}
