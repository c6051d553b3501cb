/** What the ids of a configured binding are made of, and which peers and keys are
    accepted (src/acp/persistent-bindings.types.ts,
    src/acp/persistent-bindings.resolve.ts). */
module BindingIds {
  import opened Text
  import opened SessionKeys
  import opened Conversations
  import opened Bindings

  /** The id of a record names its channel, its account and its conversation. */
  lemma RecordIdParts(env: Env, x: Spec)
    requires ':' !in x.accountId
    ensures Split(ToRecord(env, x).bindingId, ':')
         == ["config", "acp", Name(x.channel), x.accountId] + Split(x.conversationId, ':')
  {
    ColonFree(x.channel);
    FourParts("config", "acp", Name(x.channel), x.accountId, x.conversationId, ToRecord(env, x).bindingId);
  }

  lemma ColonFree(ch: Channel)
    ensures ':' !in Name(ch)
  {
  }

  lemma FourParts(a: string, b: string, c: string, d: string, e: string, s: string)
    requires ':' !in a && ':' !in b && ':' !in c && ':' !in d
    requires s == a + ":" + b + ":" + c + ":" + d + ":" + e
    ensures Split(s, ':') == [a, b, c, d] + Split(e, ':')
  {
    hide Split;
    var ab, abc := a + ":" + b + ":", a + ":" + b + ":" + c + ":";
    var cde := c + ":" + (d + ":" + e);
    Shift(abc, d, e);
    Shift(ab, c, d + ":" + e);
    Shift(a + ":", b, cde);
    FirstPart(d, e);
    FirstPart(c, d + ":" + e);
    FirstPart(b, cde);
    FirstPart(a, b + ":" + cde);
  }

  lemma Shift(first: string, x: string, rest: string)
    ensures (first + x + ":") + rest == first + (x + ":" + rest)
  {
  }

  lemma FirstPart(x: string, rest: string)
    requires ':' !in x
    ensures Split(x + ":" + rest, ':') == [x] + Split(rest, ':')
  {
    SplitFree(x, ':');
    SplitAtSeparator(x, ':', rest);
    assert x + ":" + rest == x + [':'] + rest;
    hide Split;
  }

  /** What is hashed names them too, so different conversations of a channel and
      account are different inputs of the hash. */
  lemma DigestInput(env: Env, ch: Channel, account: string, conversation: string)
    requires ':' !in account
    ensures exists text :: Digest(env, ch, account, conversation) == env.hash(text)
                           && Split(text, ':') == [Name(ch), account] + Split(conversation, ':')
  {
    var text := Name(ch) + ":" + account + ":" + conversation;
    ColonFree(ch);
    hide Split, Name;
    Shift(Name(ch) + ":", account, conversation);
    FirstPart(account, conversation);
    FirstPart(Name(ch), account + ":" + conversation);
    assert Digest(env, ch, account, conversation) == env.hash(text);
  }

  /** A Feishu peer can be bound when it names a topic, or when it is a bare id
      that is neither that of a chat nor that of a user of a chat. */
  lemma FeishuPeerIff(b: Binding)
    requires TrimJs(b.peerId) != ""
    ensures var id := TrimJs(b.peerId);
            TargetOf(Feishu, b).Some? <==>
              (ParseFeishu(id, "").Some? && TopicScope(ParseFeishu(id, "").value.scope))
              || (':' !in id && !("oc_" <= id) && !("on_" <= id))
  {
    var id := TrimJs(b.peerId);
    TrimTwice(b.peerId);
    EmptyTrimmed();
    if ':' !in id {
      ParsesBare(id, "");
    } else {
      NotBare(id);
    }
    hide TrimJs, ParseFeishu;
  }

  lemma EmptyTrimmed()
    ensures TrimJs("") == ""
  {
  }

  /** With a colon in it an id names a topic, or is not a direct one. */
  lemma NotBare(id: string)
    requires ':' in id && TrimJs(id) == id
    ensures var c := ParseFeishu(id, "");
            c.Some? && !TopicScope(c.value.scope) ==> !SupportedDirect(c.value.canonicalId)
  {
    var c := ParseFeishu(id, "");
    EmptyTrimmed();
    if c.Some? && c.value.scope.GroupSender? {
      var sender := MatchTail(id, ":sender:").value;
      SenderColon(id, sender);
      hide MatchTail, TrimJs, FeishuId, ParseFeishu;
      ColonStays(c.value.canonicalId);
    } else {
      hide MatchTail, FeishuId;
      ColonStays(id);
    }
  }

  lemma ColonStays(s: string)
    requires ':' in s
    ensures !SupportedDirect(s)
  {
    TrimLeftKeeps(s, ':');
    TrimRightKeeps(TrimLeft(s, JsSpace), ':');
    hide TrimLeft, TrimRight;
  }

  lemma {:induction false} TrimLeftKeeps(s: string, c: char)
    requires c in s && !JsSpace(c)
    ensures c in TrimLeft(s, JsSpace)
  {
    if JsSpace(s[0]) { TrimLeftKeeps(s[1..], c); }
  }

  lemma {:induction false} TrimRightKeeps(s: string, c: char)
    requires c in s && !JsSpace(c)
    ensures c in TrimRight(s, JsSpace)
  {
    if JsSpace(s[|s| - 1]) { TrimRightKeeps(s[..|s| - 1], c); }
  }

  lemma SenderColon(id: string, sender: Tail)
    requires MatchTail(id, ":sender:") == Some(sender) && TrimJs(id) == id
    ensures ':' in FeishuId(sender.head, "", sender.last)
  {
    EmptyTrimmed();
    MatchTailParts(id, ":sender:");
    TrimEnds(id);
    assert id[|id| - 1] == sender.last[|sender.last| - 1];
    NotBlank(sender.last);
    var chat := if TrimJs(sender.head) == "" then "unknown" else TrimJs(sender.head);
    hide TrimJs, MatchTail;
    assert FeishuId(sender.head, "", sender.last)[|chat|] == ':';
  }

  lemma NotBlank(s: string)
    requires s != "" && !JsSpace(s[|s| - 1])
    ensures TrimJs(s) != ""
  {
    TrimLeftKeeps(s, s[|s| - 1]);
    TrimRightKeeps(TrimLeft(s, JsSpace), s[|s| - 1]);
  }

  // ---- which keys are read ----

  function Colons(s: string): nat { if s == "" then 0 else (if s[0] == ':' then 1 else 0) + Colons(s[1..]) }

  lemma {:induction false} ColonsSplit(s: string)
    ensures |Split(s, ':')| == Colons(s) + 1
  {
    if s == "" {
    } else {
      ColonsSplit(s[1..]);
    }
  }

  lemma {:induction false} ColonsLower(s: string)
    ensures Colons(Lower(s)) == Colons(s)
  {
    if s == "" {
    } else {
      ColonsLower(s[1..]);
      assert Lower(s)[1..] == Lower(s[1..]);
      assert Lower(s)[0] == ':' <==> s[0] == ':';
      hide Lower;
    }
  }

  lemma {:induction false} ColonsLeft(s: string)
    ensures Colons(TrimLeft(s, JsSpace)) == Colons(s)
  {
    if s == "" {
    } else if JsSpace(s[0]) {
      ColonsLeft(s[1..]);
    }
  }

  lemma {:induction false} ColonsLast(s: string, c: char)
    ensures Colons(s + [c]) == Colons(s) + if c == ':' then 1 else 0
  {
    if s == "" {
    } else {
      assert (s + [c])[1..] == s[1..] + [c];
      ColonsLast(s[1..], c);
    }
  }

  lemma {:induction false} ColonsRight(s: string)
    ensures Colons(TrimRight(s, JsSpace)) == Colons(s)
  {
    if s == "" {
    } else if JsSpace(s[|s| - 1]) {
      ColonsLast(s[..|s| - 1], s[|s| - 1]);
      assert s[..|s| - 1] + [s[|s| - 1]] == s;
      ColonsRight(s[..|s| - 1]);
      hide Colons;
    }
  }

  lemma {:induction false} PartsStayFree(parts: seq<string>)
    requires forall i | 0 <= i < |parts| :: ':' !in parts[i]
    ensures forall i | 0 <= i < |NonEmpty(parts)| :: ':' !in NonEmpty(parts)[i]
  {
    if parts == [] {
    } else {
      PartsStayFree(parts[1..]);
    }
  }

  /** Only keys of seven parts are read as those of a configured binding, not
      counting empty parts. */
  lemma ReadKeyHasSevenParts(key: string)
    requires ParseConfiguredKey(key).Some?
    ensures |NonEmpty(Split(Lower(TrimJs(key)), ':'))| == 7
  {
    hide Split, TrimJs, Lower, Join, NormalizeChannel, NormalizeAccountId, NonEmpty;
    var parts := NonEmpty(Split(Lower(TrimJs(key)), ':'));
    PartsStayFree(Split(Lower(TrimJs(key)), ':'));
    var rest := Join(parts[2..], ':');
    SplitOfJoin(parts[2..], ':');
    ColonsSplit(rest);
    ColonsTrimmed(rest);
    ColonsLower(TrimJs(rest));
    ColonsSplit(Lower(TrimJs(rest)));
    hide Colons;
  }

  lemma ColonsTrimmed(s: string)
    ensures Colons(TrimJs(s)) == Colons(s)
  {
    ColonsLeft(s);
    ColonsRight(TrimLeft(s, JsSpace));
    hide TrimLeft, TrimRight, Colons;
  }
}
