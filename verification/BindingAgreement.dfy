/** Routing and session-key recovery agree (src/acp/persistent-bindings.resolve.ts). */
module BindingAgreement {
  import opened Text
  import opened SessionKeys
  import opened Conversations
  import opened Bindings

  /** Digests are hexadecimal: no colon, no space, nothing to lower. */
  ghost predicate HashLaw(env: Env) { forall s :: Plain(env.hash(s)) }

  /** No two configured conversations of the channel have the same digest. */
  ghost predicate NoCollision(env: Env, channel: Channel, account: string) {
    forall b, c | b in env.bindings && c in env.bindings && TargetOf(channel, b).Some? && TargetOf(channel, c).Some? ::
      Digest(env, channel, account, TargetOf(channel, b).value.conversationId)
        == Digest(env, channel, account, TargetOf(channel, c).value.conversationId)
      ==> TargetOf(channel, b).value.conversationId == TargetOf(channel, c).value.conversationId
  }

  /** The Feishu conversation that a configured id names. */
  function Named(peerId: string): Option<FeishuConversation> {
    var id := TrimJs(peerId);
    var parsed := ParseFeishu(id, "");
    if id == "" || parsed.None? || !Admissible(parsed.value) then None else parsed
  }

  function Reparsed(c: FeishuConversation): Option<FeishuConversation> { ParseFeishu(c.canonicalId, "") }

  /** The canonical id names a conversation with this canonical id. */
  predicate Lasting(c: FeishuConversation) {
    Reparsed(c).Some? && Reparsed(c).value.canonicalId == c.canonicalId && Admissible(Reparsed(c).value)
  }

  /** A configured conversation is treated as the one its canonical id names. */
  predicate Reliable(t: FeishuConversation) {
    Lasting(t) ==>
      && ParentOf(t) == ParentOf(Reparsed(t).value)
      && (Reparsed(t).value.scope.GroupTopic? ==> t.scope.GroupTopic? && t.topicId == Reparsed(t).value.topicId)
  }

  predicate Settled(c: FeishuConversation) { Lasting(c) && ParentOf(c) == ParentOf(Reparsed(c).value) }

  predicate ReliableId(id: string) { Named(id).Some? ==> Reliable(Named(id).value) }

  /** A binding for the very conversation only counts if it is settled. */
  ghost predicate SettledIn(env: Env, c: FeishuConversation) {
    forall b | b in env.bindings && Named(b.peerId).Some? && Named(b.peerId).value.canonicalId == c.canonicalId ::
        Settled(c)
  }

  // ---- what the two views of a binding have in common ----

  lemma SelectedIsTarget(q: Query, b: Binding)
    requires Select(q, b).Some?
    ensures TargetOf(ChannelOf(q), b).Some?
    ensures TargetOf(ChannelOf(q), b).value.conversationId == Select(q, b).value.conversationId
  {
    hide TrimJs, ParseFeishu, ParseTelegram, Admissible;
  }

  /** Routing and recovery see a Feishu binding through what it names. */
  lemma FeishuViews(c: FeishuConversation, b: Binding)
    ensures match Named(b.peerId)
            case None => Select(FeishuQuery(c), b).None? && TargetOf(Feishu, b).None?
            case Some(t) =>
              var same := t.canonicalId == c.canonicalId;
              var viaTopic := c.scope.GroupTopicSender? && t.scope.GroupTopic?
                              && c.chatId == t.chatId && c.topicId == t.topicId;
              && TargetOf(Feishu, b) == Some(Target(t.canonicalId, ParentOf(t)))
              && Select(FeishuQuery(c), b)
                 == if !same && !viaTopic then None
                    else Some(Selection(t.canonicalId, ParentOf(c), if same then 2 else 1))
  {
    hide TrimJs, ParseFeishu, Admissible;
  }

  /** A topic's canonical id names a topic. */
  lemma TopicLasts(peerId: string)
    requires Named(peerId).Some? && Named(peerId).value.scope.GroupTopic?
    ensures Lasting(Named(peerId).value) && Reparsed(Named(peerId).value).value.scope.GroupTopic?
  {
    TopicReparses(TrimJs(peerId), Named(peerId).value);
    hide TrimJs, ParseFeishu;
  }

  /** Of two reliable bindings with one target, either serves a conversation as
      the other does. */
  lemma SameFeishuTarget(c: FeishuConversation, b: Binding, d: Binding)
    requires Named(b.peerId).Some? && Named(d.peerId).Some? && ReliableId(b.peerId) && ReliableId(d.peerId)
    requires Named(d.peerId).value.canonicalId == Named(b.peerId).value.canonicalId
    requires Named(b.peerId).value.canonicalId == c.canonicalId ==> Settled(c)
    requires Select(FeishuQuery(c), b).Some?
    ensures Select(FeishuQuery(c), d) == Select(FeishuQuery(c), b)
    ensures TargetOf(Feishu, d).value.parent == Select(FeishuQuery(c), b).value.parent
  {
    FeishuViews(c, b);
    FeishuViews(c, d);
    var t, u := Named(b.peerId).value, Named(d.peerId).value;
    if t.canonicalId != c.canonicalId {
      TopicLasts(b.peerId);
    }
    hide Named, ParseFeishu, Admissible, Select, TargetOf;
  }

  ghost predicate Tame(env: Env, q: Query, account: string) {
    && HashLaw(env) && NoCollision(env, ChannelOf(q), account)
    && match q
       case FeishuQuery(c) => (forall b | b in env.bindings :: ReliableId(b.peerId)) && SettledIn(env, c)
       case TelegramQuery(t) => SignedDigits(t.chatId)
       case DiscordQuery(_) => true
  }

  /** Bindings for the same conversation are selected alike, and recovery gives
      them the parent that routing gave. */
  lemma SameTargetSameSelection(env: Env, q: Query, account: string, b: Binding, d: Binding)
    requires Tame(env, q, account) && b in env.bindings && d in env.bindings
    requires Select(q, b).Some? && TargetOf(ChannelOf(q), d).Some?
    requires TargetOf(ChannelOf(q), d).value.conversationId == Select(q, b).value.conversationId
    ensures Select(q, d) == Select(q, b)
    ensures TargetOf(ChannelOf(q), d).value.parent == Select(q, b).value.parent
  {
    hide TrimJs, ParseFeishu, ParseTelegram, Admissible, NoCollision, HashLaw, Settled, Reliable;
    match q
    case FeishuQuery(c) =>
      FeishuViews(c, b);
      FeishuViews(c, d);
      SameFeishuTarget(c, b, d);
    case TelegramQuery(topic) =>
      TelegramIdInjective(ParseTelegram(TrimJs(d.peerId), "").value, topic);
    case DiscordQuery(_) =>
  }

  // ---- keys ----

  lemma KeyParsesBack(env: Env, spec: Spec)
    requires HashLaw(env) && Plain(spec.accountId)
    ensures var key := Key(env, spec);
            && key != "" && TrimJs(key) == key
            && ParseConfiguredKey(key) == Some(KeyParts(spec.channel, NormalizeAccountId(spec.accountId)))
  {
    NormalizedIsPlain(spec.agentId);
    KeyRoundTrip(SanitizeAgentId(spec.agentId), spec.channel, spec.accountId,
                 Digest(env, spec.channel, spec.accountId, spec.conversationId));
  }

  lemma DigestIsPlain(env: Env, x: Spec)
    requires HashLaw(env)
    ensures Plain(Digest(env, x.channel, x.accountId, x.conversationId))
  {
  }

  lemma SameKeySameDigest(env: Env, x: Spec, y: Spec)
    requires HashLaw(env) && Plain(x.accountId) && Plain(y.accountId) && Key(env, x) == Key(env, y)
    ensures x.channel == y.channel && x.accountId == y.accountId
    ensures Digest(env, x.channel, x.accountId, x.conversationId)
            == Digest(env, y.channel, y.accountId, y.conversationId)
  {
    hide SanitizeAgentId, MakeKey, Digest, HashLaw, Plain;
    DigestIsPlain(env, x);
    DigestIsPlain(env, y);
    NormalizedIsPlain(x.agentId);
    NormalizedIsPlain(y.agentId);
    KeyInjective(SanitizeAgentId(x.agentId), x.channel, x.accountId,
                 Digest(env, x.channel, x.accountId, x.conversationId),
                 SanitizeAgentId(y.agentId), y.channel, y.accountId,
                 Digest(env, y.channel, y.accountId, y.conversationId));
  }

  // ---- agreement ----

  /** The account id does not change when it is normalized again. */
  predicate Stable(account: string) { NormalizeAccountId(account) == account }

  /** The chosen binding is found again under its own key. */
  lemma ChosenIsHit(env: Env, q: Query, account: string, i: nat)
    requires HashLaw(env) && Stable(account) && Candidate(env, q, account, i)
    ensures Hit(env, ChannelOf(q), account, ResolvedAt(env, q, account, i).record.targetSessionKey, i)
    ensures SpecAt(env, ChannelOf(q), account, i).value.conversationId
            == ResolvedAt(env, q, account, i).spec.conversationId
  {
    hide Select, TargetOf, NormalizeChannel, AccountPriority, Key, ToSpec, NormalizeAccountId, HashLaw;
    SelectedIsTarget(q, env.bindings[i]);
    var s, t := Select(q, env.bindings[i]).value, TargetOf(ChannelOf(q), env.bindings[i]).value;
    KeyIgnoresRest(env, ChannelOf(q), account, s.conversationId, s.parent, env.bindings[i], t.parent, env.bindings[i]);
  }

  /** The key depends on the agent and the conversation, not on the rest. */
  lemma KeyIgnoresRest(env: Env, channel: Channel, account: string, conversationId: string,
                       p: Option<string>, b: Binding, r: Option<string>, d: Binding)
    requires b.agentId == d.agentId
    ensures var x, y := ToSpec(env, channel, account, conversationId, p, b),
                ToSpec(env, channel, account, conversationId, r, d);
            Key(env, x) == Key(env, y) && x.conversationId == y.conversationId == conversationId
  {
    hide SanitizeAgentId, MakeKey, NormalizeAccountId, NormalizeMode, NormalizeText, Digest;
  }

  lemma KeyOfResolved(env: Env, q: Query, account: string, i: nat)
    requires HashLaw(env) && Stable(account) && Candidate(env, q, account, i)
    ensures var key := ResolvedAt(env, q, account, i).record.targetSessionKey;
            key != "" && TrimJs(key) == key && ParseConfiguredKey(key) == Some(KeyParts(ChannelOf(q), account))
  {
    hide HashLaw, Select, Candidate, Key, NormalizeAccountId, TrimJs, ParseConfiguredKey;
    NormalizedIsPlain(account);
    KeyParsesBack(env, ResolvedAt(env, q, account, i).spec);
  }

  /** Recovery looks under the channel and the account that routing used. */
  lemma RecoveryLooksThere(env: Env, q: Query, account: string, i: nat, r: Option<Spec>)
    requires HashLaw(env) && Stable(account) && Candidate(env, q, account, i)
    ensures var key := ResolvedAt(env, q, account, i).record.targetSessionKey;
            RecoversTo(env, key, r) <==>
            match r
            case None => forall j :: !Hit(env, ChannelOf(q), account, key, j)
            case Some(spec) =>
              exists j :: FirstHit(env, ChannelOf(q), account, key, j)
                          && SpecAt(env, ChannelOf(q), account, j) == Some(spec)
  {
    hide HashLaw, Candidate, TrimJs, ParseConfiguredKey, ResolvedAt, Stable, SpecAt, Hit;
    KeyOfResolved(env, q, account, i);
  }

  /** Whatever the digests and ids, recovery finds a binding with the same key. */
  lemma SomeBindingRecovered(env: Env, q: Query, account: string, i: nat, r: Option<Spec>)
    requires HashLaw(env) && Stable(account) && Chosen(env, q, account, i)
    requires RecoversTo(env, ResolvedAt(env, q, account, i).record.targetSessionKey, r)
    ensures r.Some? && Key(env, r.value) == ResolvedAt(env, q, account, i).record.targetSessionKey
  {
    RecoveryLooksThere(env, q, account, i, r);
    ChosenIsHit(env, q, account, i);
  }

  /** Another hit on the key is a candidate of the same priority. */
  lemma HitIsCandidate(env: Env, q: Query, account: string, i: nat, j: nat)
    requires Tame(env, q, account) && Stable(account) && Candidate(env, q, account, i)
    requires Hit(env, ChannelOf(q), account, ResolvedAt(env, q, account, i).record.targetSessionKey, j)
    ensures Candidate(env, q, account, j) && Priority(env, q, j) == Priority(env, q, i)
  {
    var b, d := env.bindings[i], env.bindings[j];
    SelectedIsTarget(q, b);
    NormalizedIsPlain(account);
    SameKeySameDigest(env, ResolvedAt(env, q, account, i).spec, SpecAt(env, ChannelOf(q), account, j).value);
    SameDigestSameTarget(env, q, account, i, j);
    SameTargetSameSelection(env, q, account, b, d);
    hide Select, TargetOf, NormalizeChannel, NormalizeAccountId, AccountPriority, Key, Tame;
  }

  lemma SameDigestSameTarget(env: Env, q: Query, account: string, i: nat, j: nat)
    requires NoCollision(env, ChannelOf(q), account) && i < |env.bindings| && j < |env.bindings|
    requires TargetOf(ChannelOf(q), env.bindings[i]).Some? && TargetOf(ChannelOf(q), env.bindings[j]).Some?
    requires Digest(env, ChannelOf(q), account, TargetOf(ChannelOf(q), env.bindings[i]).value.conversationId)
          == Digest(env, ChannelOf(q), account, TargetOf(ChannelOf(q), env.bindings[j]).value.conversationId)
    ensures TargetOf(ChannelOf(q), env.bindings[i]).value.conversationId
         == TargetOf(ChannelOf(q), env.bindings[j]).value.conversationId
  {
    hide TargetOf, Digest;
  }

  /** The first hit on the key of the chosen binding is that binding. */
  lemma FirstHitIsChosen(env: Env, q: Query, account: string, i: nat, j: nat)
    requires Tame(env, q, account) && Stable(account) && Chosen(env, q, account, i)
    requires FirstHit(env, ChannelOf(q), account, ResolvedAt(env, q, account, i).record.targetSessionKey, j)
    ensures i == j
  {
    HitIsCandidate(env, q, account, i, j);
    ChosenIsHit(env, q, account, i);
    hide Select, TargetOf, NormalizeChannel, AccountPriority, ResolvedAt, NormalizeAccountId, Tame, SpecAt, Candidate;
  }

  lemma SpecsEqual(env: Env, q: Query, account: string, i: nat)
    requires Tame(env, q, account) && Stable(account) && Candidate(env, q, account, i)
    requires SpecAt(env, ChannelOf(q), account, i).Some?
    ensures SpecAt(env, ChannelOf(q), account, i).value == ResolvedAt(env, q, account, i).spec
  {
    var b := env.bindings[i];
    SelectedIsTarget(q, b);
    SameTargetSameSelection(env, q, account, b, b);
    hide Tame, Select, TargetOf, NormalizeChannel, AccountPriority, NormalizeAccountId;
  }

  lemma AgreementAt(env: Env, q: Query, account: string, i: nat, recovered: Option<Spec>)
    requires Tame(env, q, account) && Stable(account) && Chosen(env, q, account, i) && Candidate(env, q, account, i)
    requires RecoversTo(env, ResolvedAt(env, q, account, i).record.targetSessionKey, recovered)
    ensures recovered == Some(ResolvedAt(env, q, account, i).spec)
  {
    assert HashLaw(env);
    hide Tame, Chosen, Candidate, SpecAt, Stable, RecoversTo, Hit, ResolvedAt, HashLaw, FirstHit;
    RecoveryLooksThere(env, q, account, i, recovered);
    ChosenIsHit(env, q, account, i);
    var key := ResolvedAt(env, q, account, i).record.targetSessionKey;
    if recovered.Some? {
      var j :| FirstHit(env, ChannelOf(q), account, key, j) && SpecAt(env, ChannelOf(q), account, j) == recovered;
      FirstHitIsChosen(env, q, account, i, j);
      SpecsEqual(env, q, account, i);
    }
  }

  /** For a stable account id, recovering the session key of a routed
      conversation returns exactly the spec that routing built. */
  lemma Agreement(env: Env, q: Query, account: string, routed: Option<Resolved>, recovered: Option<Spec>)
    requires Tame(env, q, account) && Stable(account)
    requires RoutesTo(env, q, account, routed) && routed.Some?
    requires RecoversTo(env, routed.value.record.targetSessionKey, recovered)
    ensures recovered == Some(routed.value.spec)
  {
    hide Tame, Candidate, Stable, RecoversTo, ResolvedAt, Exact, NoneOf;
    var i :| Chosen(env, q, account, i) && routed.value == ResolvedAt(env, q, account, i);
    AgreementAt(env, q, account, i, recovered);
  }

  // ---- the account id ----

  /** A configuration with one binding, for a Discord channel of the account. */
  function Lone(env: Env, accountId: string): Env {
    env.(bindings := [Binding("discord", accountId, "1", None, AcpConfig(None, None, None, None))])
  }

  /** For an account id that normalizing changes again, a conversation is
      routed and its session key leads nowhere. */
  lemma UnstableAccountIsLost(env: Env, accountId: string)
    requires HashLaw(env) && !Stable(NormalizeAccountId(accountId))
    ensures var account, lone, q := NormalizeAccountId(accountId), Lone(env, accountId), DiscordQuery("1");
            && Tame(lone, q, account)
            && Chosen(lone, q, account, 0)
            && RecoversTo(lone, ResolvedAt(lone, q, account, 0).record.targetSessionKey, None)
  {
    LoneIsRouted(env, accountId);
    LoneIsLost(env, accountId);
  }

  lemma LoneIsRouted(env: Env, accountId: string)
    requires HashLaw(env) && !Stable(NormalizeAccountId(accountId))
    ensures var account, lone, q := NormalizeAccountId(accountId), Lone(env, accountId), DiscordQuery("1");
            && Tame(lone, q, account) && Candidate(lone, q, account, 0) && Chosen(lone, q, account, 0)
  {
    TrimPlain("1");
    ChannelName(Discord);
    UnstableIsNamed(accountId);
    hide TrimJs, NormalizeAccountId, AccountPriority, NormalizeChannel;
    assert Candidate(Lone(env, accountId), DiscordQuery("1"), NormalizeAccountId(accountId), 0);
  }

  lemma LoneIsLost(env: Env, accountId: string)
    requires HashLaw(env) && !Stable(NormalizeAccountId(accountId))
    requires Candidate(Lone(env, accountId), DiscordQuery("1"), NormalizeAccountId(accountId), 0)
    ensures var account, lone, q := NormalizeAccountId(accountId), Lone(env, accountId), DiscordQuery("1");
            RecoversTo(lone, ResolvedAt(lone, q, account, 0).record.targetSessionKey, None)
  {
    var account, lone, q := NormalizeAccountId(accountId), Lone(env, accountId), DiscordQuery("1");
    UnstableIsNamed(accountId);
    NormalizedIsPlain(account);
    KeyParsesBack(lone, ResolvedAt(lone, q, account, 0).spec);
    NormalizeThrice(accountId);
    hide Select, TargetOf, NormalizeChannel, NormalizeAccountId, AccountPriority, TrimJs, ParseConfiguredKey, Key;
  }

  lemma BlankAndStar(v: string)
    requires TrimJs(v) == "" || TrimJs(v) == "*"
    ensures NormalizeAccountId(v) == DEFAULT_ACCOUNT_ID
  {
    if TrimJs(v) == "*" {
      assert Dashed("*", false) == "-" + Dashed("*"[1..], true);
      assert TrimLeft("-", Dash) == TrimLeft("-"[1..], Dash);
    }
  }

  /** Such an id is neither blank nor the wildcard. */
  lemma UnstableIsNamed(accountId: string)
    requires !Stable(NormalizeAccountId(accountId))
    ensures forall actual ::
              AccountPriority(accountId, actual) == if NormalizeAccountId(accountId) == actual then 2 else 0
  {
    var trimmed := TrimJs(accountId);
    TrimTwice(accountId);
    NormalizeTwice(accountId);
    if trimmed == "" || trimmed == "*" { BlankAndStar(accountId); }
    hide TrimJs, Canonicalize;
  }

  /** What is routed is recovered from its session key. */
  ghost predicate AgreesOn(env: Env, q: Query, account: string) {
    forall routed, recovered |
      RoutesTo(env, q, account, Some(routed)) && RecoversTo(env, routed.record.targetSessionKey, recovered) ::
      recovered == Some(routed.spec)
  }

  lemma AgreementOn(env: Env, q: Query, account: string)
    requires Tame(env, q, account) && Stable(account)
    ensures AgreesOn(env, q, account)
  {
    hide Tame, RoutesTo, RecoversTo;
    forall routed, recovered |
      RoutesTo(env, q, account, Some(routed)) && RecoversTo(env, routed.record.targetSessionKey, recovered)
      ensures recovered == Some(routed.spec)
    {
      Agreement(env, q, account, Some(routed), recovered);
    }
  }

  /** Agreement for every configuration and conversation holds exactly for the
      account ids that a second normalization leaves alone. */
  lemma AgreementIffStable(env: Env, accountId: string)
    requires HashLaw(env)
    ensures var account := NormalizeAccountId(accountId);
            (forall bindings, q | Tame(env.(bindings := bindings), q, account) ::
               AgreesOn(env.(bindings := bindings), q, account))
            <==> !EndsInCutDash(account)
  {
    var account := NormalizeAccountId(accountId);
    NormalizeTwice(accountId);
    hide Tame, Candidate, NormalizeAccountId, EndsInCutDash;
    if Stable(account) {
      forall bindings, q | Tame(env.(bindings := bindings), q, account)
        ensures AgreesOn(env.(bindings := bindings), q, account)
      {
        AgreementOn(env.(bindings := bindings), q, account);
      }
    } else {
      UnstableAccountIsLost(env, accountId);
      var lone, q := Lone(env, accountId), DiscordQuery("1");
      assert lone == env.(bindings := lone.bindings);
      assert RoutesTo(lone, q, account, Some(ResolvedAt(lone, q, account, 0)));
    }
  }

  // ---- the Feishu ids ----

  /** A binding of the account for a Feishu id. */
  function ForId(account: string, peerId: string, labelText: Option<string>): Binding {
    Binding("feishu", account, peerId, None, AcpConfig(None, None, None, labelText))
  }

  lemma OwnAccount(account: string)
    requires Stable(account)
    ensures AccountPriority(account, account) == 2
  {
    NormalizedIsPlain(account);
    TrimPlain(account);
    assert !IdChar('*');
    hide TrimJs, NormalizeAccountId;
  }

  /** What routing and recovery make of such a binding. */
  lemma ForIdViews(env: Env, account: string, c: FeishuConversation, i: nat)
    requires HashLaw(env) && Stable(account) && i < |env.bindings|
    requires exists labelText :: env.bindings[i] == ForId(account, env.bindings[i].peerId, labelText)
    ensures Candidate(env, FeishuQuery(c), account, i) <==> Select(FeishuQuery(c), env.bindings[i]).Some?
    ensures Exact(env, account, i)
    ensures match TargetOf(Feishu, env.bindings[i])
            case None => SpecAt(env, Feishu, account, i) == None
            case Some(target) =>
              SpecAt(env, Feishu, account, i)
              == Some(ToSpec(env, Feishu, account, target.conversationId, target.parent, env.bindings[i]))
  {
    hide Select, TargetOf, NormalizeChannel, AccountPriority, Stable, ToSpec, HashLaw;
    ChannelName(Feishu);
    OwnAccount(account);
  }

  /** When another spec is recovered than was routed, there is no agreement. */
  lemma Disagree(env: Env, q: Query, account: string, i: nat, j: nat)
    requires HashLaw(env) && Stable(account) && Chosen(env, q, account, i)
    requires FirstHit(env, ChannelOf(q), account, ResolvedAt(env, q, account, i).record.targetSessionKey, j)
    requires SpecAt(env, ChannelOf(q), account, j) != Some(ResolvedAt(env, q, account, i).spec)
    ensures !AgreesOn(env, q, account)
  {
    hide Candidate, SpecAt, RecoversTo, HashLaw, Stable, ResolvedAt, Exact;
    RecoveryLooksThere(env, q, account, i, SpecAt(env, ChannelOf(q), account, j));
    assert RoutesTo(env, q, account, Some(ResolvedAt(env, q, account, i)));
  }

  lemma NamedIs(peerId: string, c: FeishuConversation)
    requires ParseFeishu(peerId, "") == Some(c) && Admissible(c)
    ensures Named(peerId) == Some(c)
  {
    TrimTwice(peerId);
    hide TrimJs, Admissible, MatchTail;
  }

  /** A lone binding with a parent of its own is recovered with that parent. */
  lemma LoneParent(env: Env, account: string, id: string, c: FeishuConversation)
    requires HashLaw(env) && Stable(account) && env.bindings == [ForId(account, id, None)]
    requires Named(id).Some? && Named(id).value.canonicalId == c.canonicalId && ParentOf(Named(id).value) != ParentOf(c)
    ensures NoCollision(env, Feishu, account) && !AgreesOn(env, FeishuQuery(c), account)
  {
    var q := FeishuQuery(c);
    FeishuViews(c, env.bindings[0]);
    ForIdViews(env, account, c, 0);
    hide Named, Select, TargetOf, NormalizeChannel, AccountPriority, HashLaw, Stable, SpecAt, AgreesOn, Digest;
    assert Chosen(env, q, account, 0);
    ChosenIsHit(env, q, account, 0);
    Disagree(env, q, account, 0, 0);
  }

  /** Some sender in a topic. */
  function SenderIn(p: FeishuConversation): FeishuConversation {
    FeishuConversation(FeishuId(p.chatId, p.topicId, "s"), p.chatId, p.topicId, "s", GroupTopicSender)
  }

  lemma SenderId(chat: string, topic: string)
    requires TrimJs(chat) == chat != "" && TrimJs(topic) == topic != ""
    ensures var s := (chat + ":topic:" + topic) + ":sender:" + "s";
            FeishuId(chat, topic, "s") == s == TrimJs(s) && FeishuId(chat, topic, "") != s
  {
    TrimSolid("s");
    TrimSolid("");
    hide TrimJs;
    var s := (chat + ":topic:" + topic) + ":sender:" + "s";
    assert s == chat + (":topic:" + topic + ":sender:") + "s";
    TrimmedAround(chat, ":topic:" + topic + ":sender:", "s");
    assert |FeishuId(chat, topic, "")| < |s|;
  }

  lemma SenderIsCoherent(p: FeishuConversation)
    requires Coherent(p) && p.scope.GroupTopic?
    ensures Coherent(SenderIn(p)) && SenderIn(p).canonicalId != p.canonicalId
  {
    TrimSolid("s");
    hide TrimJs, ParseFeishu, FeishuId, JsSpace, OneLine;
    TopicReparses(p.canonicalId, p);
    TopicParts(p.canonicalId, p);
    EndsAreLeft(p.canonicalId, p.chatId, ":topic:", p.topicId);
    SenderId(p.chatId, p.topicId);
    ParsesTopicSender(p.chatId, p.topicId, "s", SenderIn(p).canonicalId);
  }

  /** An id that stands for a topic but is parsed to other parts. */
  predicate Misread(id: string, p: FeishuConversation) {
    && Coherent(p) && p.scope.GroupTopic?
    && Named(id).Some? && Named(id).value.canonicalId == p.canonicalId
    && var t := Named(id).value; !(t.scope.GroupTopic? && t.chatId == p.chatId && t.topicId == p.topicId)
  }

  function BothIds(account: string, id: string, p: FeishuConversation): seq<Binding> {
    [ForId(account, id, None), ForId(account, p.canonicalId, Some("y"))]
  }

  lemma SenderViews(env: Env, account: string, id: string, p: FeishuConversation)
    requires HashLaw(env) && Stable(account) && Misread(id, p) && env.bindings == BothIds(account, id, p)
    ensures var b, d, c := env.bindings[0], env.bindings[1], SenderIn(p);
            && Select(FeishuQuery(c), b).None?
            && Select(FeishuQuery(c), d) == Some(Selection(p.canonicalId, Some(p.chatId), 1))
            && TargetOf(Feishu, b) == Some(Target(p.canonicalId, ParentOf(Named(id).value)))
            && TargetOf(Feishu, d) == Some(Target(p.canonicalId, ParentOf(p)))
            && Candidate(env, FeishuQuery(c), account, 1) && !Candidate(env, FeishuQuery(c), account, 0)
            && Exact(env, account, 0) && Exact(env, account, 1)
            && SpecAt(env, Feishu, account, 0)
               == Some(ToSpec(env, Feishu, account, p.canonicalId, ParentOf(Named(id).value), b))
  {
    var c := SenderIn(p);
    SenderIsCoherent(p);
    NamedIs(p.canonicalId, p);
    FeishuViews(c, env.bindings[0]);
    FeishuViews(c, env.bindings[1]);
    ForIdViews(env, account, c, 0);
    ForIdViews(env, account, c, 1);
    hide Named, Select, TargetOf, NormalizeChannel, AccountPriority, HashLaw, Stable, SpecAt, Coherent, FeishuId,
      ToSpec, Candidate;
  }

  lemma OneTargetNoCollision(env: Env, channel: Channel, account: string, id: string)
    requires forall b | b in env.bindings && TargetOf(channel, b).Some? ::
             TargetOf(channel, b).value.conversationId == id
    ensures NoCollision(env, channel, account)
  {
    hide TargetOf, Digest;
  }

  lemma OnlySecondChosen(env: Env, q: Query, account: string)
    requires |env.bindings| == 2 && Candidate(env, q, account, 1) && !Candidate(env, q, account, 0)
             && Exact(env, account, 1)
    ensures Chosen(env, q, account, 1)
  {
    hide Select, Candidate, Exact;
  }

  /** A sender in the topic is routed by the canonical id and recovered with the
      other binding. */
  lemma SenderLost(env: Env, account: string, id: string, p: FeishuConversation)
    requires HashLaw(env) && Stable(account) && Misread(id, p) && env.bindings == BothIds(account, id, p)
    ensures NoCollision(env, Feishu, account) && !AgreesOn(env, FeishuQuery(SenderIn(p)), account)
  {
    hide Select, TargetOf, HashLaw, Stable, SpecAt, Misread, Candidate, ToSpec, Key, Exact, Named, AgreesOn, ParentOf,
      NoCollision;
    var q, b, d := FeishuQuery(SenderIn(p)), env.bindings[0], env.bindings[1];
    SenderViews(env, account, id, p);
    var parent := TargetOf(Feishu, b).value.parent;
    OneTargetNoCollision(env, Feishu, account, p.canonicalId);
    OnlySecondChosen(env, q, account);
    KeyIgnoresRest(env, Feishu, account, p.canonicalId, Some(p.chatId), d, parent, b);
    OtherLabel(env, account, p.canonicalId, Some(p.chatId), d, parent, b);
    Disagree(env, q, account, 1, 0);
  }

  lemma OtherLabel(env: Env, account: string, conversationId: string, p: Option<string>, d: Binding,
                   r: Option<string>, b: Binding)
    requires d.acp.labelText == Some("y") && b.acp.labelText == None
    ensures ToSpec(env, Feishu, account, conversationId, p, d) != ToSpec(env, Feishu, account, conversationId, r, b)
  {
    TrimSolid("y");
  }

  predicate CoherentId(id: string) { Named(id).Some? ==> Coherent(Named(id).value) }

  /** Lists that hold the id and coherent ids alone. */
  predicate Beside(bindings: seq<Binding>, id: string) {
    forall b | b in bindings :: b.peerId == id || CoherentId(b.peerId)
  }

  lemma CoherentIsSettled(c: FeishuConversation)
    requires Coherent(c)
    ensures Reliable(c) && (Admissible(c) ==> Settled(c))
  {
    hide ParseFeishu, Admissible;
  }

  lemma BesideIsTame(env: Env, id: string, c: FeishuConversation, account: string)
    requires HashLaw(env) && NoCollision(env, Feishu, account) && Beside(env.bindings, id) && ReliableId(id)
    requires Coherent(c) && Admissible(c)
    ensures Tame(env, FeishuQuery(c), account)
  {
    hide HashLaw, NoCollision, Named, Coherent, Admissible, Reliable, Settled;
    CoherentIsSettled(c);
    forall b | b in env.bindings ensures ReliableId(b.peerId) {
      if b.peerId != id && Named(b.peerId).Some? { CoherentIsSettled(Named(b.peerId).value); }
    }
  }

  /** With one id the condition fails for, there is a configuration and a
      coherent conversation without agreement. */
  lemma UnreliableIsLost(env: Env, account: string, id: string) returns (bindings: seq<Binding>, c: FeishuConversation)
    requires HashLaw(env) && Stable(account) && !ReliableId(id)
    ensures Beside(bindings, id) && Coherent(c) && Admissible(c)
    ensures NoCollision(env.(bindings := bindings), Feishu, account)
    ensures !AgreesOn(env.(bindings := bindings), FeishuQuery(c), account)
  {
    var t := Named(id).value;
    var p := Reparsed(t).value;
    hide ParseFeishu, Named, NoCollision, AgreesOn, HashLaw, Stable;
    if ParentOf(t) != ParentOf(p) && !p.scope.GroupTopic? {
      bindings, c := [ForId(account, id, None)], p;
      LoneParent(env.(bindings := bindings), account, id, p);
    } else {
      bindings, c := BothIds(account, id, p), SenderIn(p);
      SenderIsCoherent(p);
      NamedIs(p.canonicalId, p);
      SenderLost(env.(bindings := bindings), account, id, p);
    }
  }

  /** Exactly the Feishu ids that agree with what their canonical id names may be
      configured beside coherent ids without losing a coherent conversation. */
  lemma FeishuIdIff(env: Env, account: string, id: string)
    requires HashLaw(env) && Stable(account)
    ensures (forall bindings, c |
               && Beside(bindings, id) && Coherent(c) && Admissible(c)
               && NoCollision(env.(bindings := bindings), Feishu, account) ::
               AgreesOn(env.(bindings := bindings), FeishuQuery(c), account))
            <==> ReliableId(id)
  {
    hide NoCollision, ReliableId, Stable, Beside, Coherent, Admissible, AgreesOn, Tame;
    if ReliableId(id) {
      forall bindings, c |
        && Beside(bindings, id) && Coherent(c) && Admissible(c)
        && NoCollision(env.(bindings := bindings), Feishu, account)
        ensures AgreesOn(env.(bindings := bindings), FeishuQuery(c), account)
      {
        BesideIsTame(env.(bindings := bindings), id, c, account);
        AgreementOn(env.(bindings := bindings), FeishuQuery(c), account);
      }
    } else {
      var bindings, c := UnreliableIsLost(env, account, id);
    }
  }

  /** A topic's id is reliable if and only if its parts have no outer spaces. */
  lemma TopicReliableIff(id: string)
    requires Named(id).Some? && Named(id).value.scope.GroupTopic?
    ensures var t := Named(id).value; ReliableId(id) <==> TrimJs(t.chatId) == t.chatId && TrimJs(t.topicId) == t.topicId
  {
    hide TrimJs, ParseFeishu, SupportedDirect, FeishuId;
    TopicReparses(TrimJs(id), Named(id).value);
  }

  /** For the id of a sender in a topic only the chat counts. */
  lemma SenderReliableIff(id: string)
    requires Named(id).Some? && Named(id).value.scope.GroupTopicSender? && TrimJs(Named(id).value.topicId) != ""
    ensures var t := Named(id).value; ReliableId(id) <==> TrimJs(t.chatId) == t.chatId
  {
    hide TrimJs, ParseFeishu, SupportedDirect, FeishuId;
    TopicSenderReparses(TrimJs(id), Named(id).value);
  }

  lemma SpacedTrims()
    ensures TrimJs("oc ") == "oc" && TrimJs("oc :topic:t") == "oc :topic:t"
  {
    TrimSolid("oc :topic:t");
    TrimSolid("oc");
    assert TrimLeft("oc ", JsSpace) == "oc ";
    assert "oc "[..2] == "oc";
    assert TrimRight("oc ", JsSpace) == TrimRight("oc", JsSpace);
  }

  /** The id "oc :topic:t" is not reliable. */
  lemma SpacedIdIsUnreliable()
    ensures !ReliableId("oc :topic:t")
  {
    hide ParseFeishu, FeishuId, TrimJs, ReliableId;
    SpacedTrims();
    ParsesTopic("oc ", "t", "oc :topic:t");
    assert |"oc "| != |"oc"|;
    TopicReliableIff("oc :topic:t");
  }

  // ---- the Feishu conversations ----

  /** Exactly the conversations that agree with what their canonical id names are
      recovered from every configuration of coherent ids. */
  lemma FeishuQueryIff(env: Env, account: string, c: FeishuConversation)
    requires HashLaw(env) && Stable(account)
    ensures (forall bindings |
               && (forall b: Binding | b in bindings :: CoherentId(b.peerId))
               && NoCollision(env.(bindings := bindings), Feishu, account) ::
               AgreesOn(env.(bindings := bindings), FeishuQuery(c), account))
            <==> (Lasting(c) ==> Settled(c))
  {
    hide NoCollision, Stable, Coherent, Admissible, AgreesOn, Tame, Named, Settled, Lasting;
    if Lasting(c) ==> Settled(c) {
      forall bindings |
        && (forall b: Binding | b in bindings :: CoherentId(b.peerId))
        && NoCollision(env.(bindings := bindings), Feishu, account)
        ensures AgreesOn(env.(bindings := bindings), FeishuQuery(c), account)
      {
        CoherentListIsTame(env.(bindings := bindings), c, account);
        AgreementOn(env.(bindings := bindings), FeishuQuery(c), account);
      }
    } else {
      var bindings := [ForId(account, c.canonicalId, None)];
      LastingIsNamed(c);
      LoneParent(env.(bindings := bindings), account, c.canonicalId, c);
    }
  }

  lemma LastingIsNamed(c: FeishuConversation)
    requires Lasting(c) && !Settled(c)
    ensures Named(c.canonicalId) == Reparsed(c) && Reparsed(c).Some? && Coherent(Reparsed(c).value)
    ensures Reparsed(c).value.canonicalId == c.canonicalId && ParentOf(Reparsed(c).value) != ParentOf(c)
  {
    NamedIs(c.canonicalId, Reparsed(c).value);
    hide ParseFeishu, Admissible, Named;
  }

  lemma CoherentListIsTame(env: Env, c: FeishuConversation, account: string)
    requires HashLaw(env) && NoCollision(env, Feishu, account) && (Lasting(c) ==> Settled(c))
    requires forall b | b in env.bindings :: CoherentId(b.peerId)
    ensures Tame(env, FeishuQuery(c), account)
  {
    hide HashLaw, NoCollision, Reliable, Settled, ParseFeishu, Admissible, Named;
    forall b | b in env.bindings ensures ReliableId(b.peerId) {
      if Named(b.peerId).Some? { CoherentIsSettled(Named(b.peerId).value); }
    }
    forall b | b in env.bindings && Named(b.peerId).Some? && Named(b.peerId).value.canonicalId == c.canonicalId
        ensures Settled(c) {
      NamedAdmissible(b.peerId);
    }
  }

  lemma NamedAdmissible(peerId: string)
    ensures Named(peerId).Some? ==> Admissible(Named(peerId).value)
  {
    hide TrimJs, ParseFeishu, Admissible;
  }

  // ---- the entry point ----

  /** The conversations tried for a request, in order. */
  function Attempts(channel: string, conversationId: string, parentConversationId: string): seq<Query> {
    var conversation, parent := TrimJs(conversationId), TrimJs(parentConversationId);
    if conversation == "" then []
    else match NormalizeChannel(channel)
      case None => []
      case Some(Discord) =>
        [DiscordQuery(conversation)] + (if parent != "" && parent != conversation then [DiscordQuery(parent)] else [])
      case Some(Telegram) =>
        var parsed := ParseTelegram(conversation, parent);
        if parsed.None? || !("-" <= parsed.value.chatId) then [] else [TelegramQuery(parsed.value)]
      case Some(Feishu) =>
        var parsed := ParseFeishu(conversation, parent);
        if parsed.None? || !Admissible(parsed.value) then [] else [FeishuQuery(parsed.value)]
  }

  /** The first attempt that is routed decides. */
  ghost predicate Resolves(env: Env, attempts: seq<Query>, account: string, r: Option<Resolved>) {
    match r
    case None => forall k | 0 <= k < |attempts| :: RoutesTo(env, attempts[k], account, None)
    case Some(_) => exists k :: 0 <= k < |attempts| && RoutesTo(env, attempts[k], account, r)
                                && forall j | 0 <= j < k :: RoutesTo(env, attempts[j], account, None)
  }

  lemma RoutedIffCandidate(env: Env, q: Query, account: string, r: Option<Resolved>)
    requires RoutesTo(env, q, account, r)
    ensures r.Some? <==> exists i :: Candidate(env, q, account, i)
  {
    hide Candidate, ResolvedAt;
  }

  /** Discord: a binding for the channel itself wins, and only without one does
      the parent count. Telegram: the id of a topic, or a topic number in a chat,
      where the chat is a group. Feishu: a bare id is a topic of the parent. */
  method ResolveConfiguredRecord(env: Env, channel: string, accountId: string, conversationId: string,
                                 parentConversationId: string)
    returns (r: Option<Resolved>)
    ensures Resolves(env, Attempts(channel, conversationId, parentConversationId), NormalizeAccountId(accountId), r)
    ensures TrimJs(conversationId) == "" || NormalizeChannel(channel).None? ==> r.None?
    ensures var conversation, parent := TrimJs(conversationId), TrimJs(parentConversationId);
            var account, own := NormalizeAccountId(accountId), DiscordQuery(conversation);
            NormalizeChannel(channel) == Some(Discord) && conversation != "" ==>
              if exists i :: Candidate(env, own, account, i) then RoutesTo(env, own, account, r)
              else if parent != "" && parent != conversation then RoutesTo(env, DiscordQuery(parent), account, r)
              else r.None?
    ensures var conversation, parent := TrimJs(conversationId), TrimJs(parentConversationId);
            var account := NormalizeAccountId(accountId);
            NormalizeChannel(channel) == Some(Telegram) ==>
              && (Digits(conversation) && SignedDigits(parent) && "-" <= parent ==>
                    RoutesTo(env, TelegramQuery(TelegramTopic(parent, conversation)), account, r))
              && (forall t | conversation == TelegramId(t) && SignedDigits(t.chatId) && Digits(t.topicId)
                             && "-" <= t.chatId :: RoutesTo(env, TelegramQuery(t), account, r))
              && (r.Some? ==> exists t: TelegramTopic :: "-" <= t.chatId && RoutesTo(env, TelegramQuery(t), account, r)
                                && (conversation == TelegramId(t)
                                    || (conversation == t.topicId && parent == t.chatId)))
    ensures var conversation, parent := TrimJs(conversationId), TrimJs(parentConversationId);
            var account := NormalizeAccountId(accountId);
            NormalizeChannel(channel) == Some(Feishu) && conversation != "" ==>
              && (':' !in conversation && parent != "" ==>
                    var topic := FeishuConversation(FeishuId(parent, conversation, ""), parent, conversation, "",
                                                    GroupTopic);
                    RoutesTo(env, FeishuQuery(topic), account, r))
              && (':' !in conversation && parent == "" ==>
                    var chat := FeishuConversation(conversation, conversation, "", "", Group);
                    if Admissible(chat) then RoutesTo(env, FeishuQuery(chat), account, r) else r.None?)
              && (forall c | ParseFeishu(conversation, "") == Some(c) && TopicScope(c.scope) ::
                    RoutesTo(env, FeishuQuery(c), account, r))
  {
    hide RoutesTo, Candidate, TrimJs, NormalizeAccountId, ParseFeishu, ParseTelegram, SupportedDirect, NormalizeChannel,
      FeishuId, Digits, SignedDigits, TelegramId;
    var ch := NormalizeChannel(channel);
    var account := NormalizeAccountId(accountId);
    var conversation, parent := TrimJs(conversationId), TrimJs(parentConversationId);
    ghost var attempts := Attempts(channel, conversationId, parentConversationId);
    if conversation == "" || ch.None? {
      NothingParsed(conversation, parent);
      return None;
    }
    TrimTwice(conversationId);
    TrimTwice(parentConversationId);
    match ch.value
    case Discord =>
      r := ResolveBindingRecord(env, DiscordQuery(conversation), account);
      RoutedIffCandidate(env, DiscordQuery(conversation), account, r);
      if r.Some? {
        assert RoutesTo(env, attempts[0], account, r);
        return;
      }
      if parent != "" && parent != conversation {
        assert attempts[1] == DiscordQuery(parent);
        r := ResolveBindingRecord(env, DiscordQuery(parent), account);
      }
    case Telegram =>
      TelegramReads(conversation, parent);
      var parsed := ParseTelegram(conversation, parent);
      if parsed.None? || !("-" <= parsed.value.chatId) {
        return None;
      }
      assert attempts[0] == TelegramQuery(parsed.value);
      r := ResolveBindingRecord(env, TelegramQuery(parsed.value), account);
    case Feishu =>
      FeishuReads(conversation, parent);
      var parsed := ParseFeishu(conversation, parent);
      if parsed.None? || !Admissible(parsed.value) {
        return None;
      }
      assert attempts[0] == FeishuQuery(parsed.value);
      r := ResolveBindingRecord(env, FeishuQuery(parsed.value), account);
  }

  lemma NothingParsed(conversation: string, parent: string)
    ensures conversation == "" ==> !Digits(conversation) && forall t | conversation == TelegramId(t) :: false
  {
  }

  lemma FeishuReads(conversation: string, parent: string)
    requires conversation != "" && TrimJs(conversation) == conversation && TrimJs(parent) == parent
    ensures ':' !in conversation ==> ParseFeishu(conversation, parent) == Some(
              if parent != "" then
                FeishuConversation(FeishuId(parent, conversation, ""), parent, conversation, "", GroupTopic)
              else FeishuConversation(conversation, conversation, "", "", Group))
    ensures forall c | ParseFeishu(conversation, "") == Some(c) && TopicScope(c.scope) ::
              ParseFeishu(conversation, parent) == Some(c)
  {
    hide ParseFeishu, FeishuId, TrimJs;
    if ':' !in conversation { ParsesBare(conversation, parent); }
    var own := ParseFeishu(conversation, "");
    if own.Some? && TopicScope(own.value.scope) { ParentIgnored(conversation, parent); }
  }

  /** Direct and inherited Discord channels, Telegram topics and Feishu chats
      and topics: the key of what was resolved leads back to it. */
  lemma ResolvedIsRecovered(env: Env, channel: string, accountId: string, conversationId: string,
                            parentConversationId: string, resolved: Resolved, recovered: Option<Spec>)
    requires var account, attempts := NormalizeAccountId(accountId),
             Attempts(channel, conversationId, parentConversationId);
             && !EndsInCutDash(account)
             && (forall q | q in attempts :: Tame(env, q, account))
             && Resolves(env, attempts, account, Some(resolved))
    requires RecoversTo(env, resolved.record.targetSessionKey, recovered)
    ensures recovered == Some(resolved.spec)
  {
    var account, attempts := NormalizeAccountId(accountId), Attempts(channel, conversationId, parentConversationId);
    NormalizeTwice(accountId);
    var k :| 0 <= k < |attempts| && RoutesTo(env, attempts[k], account, Some(resolved));
    assert attempts[k] in attempts;
    Agreement(env, attempts[k], account, Some(resolved), recovered);
  }
}
