/** Configured ACP bindings (src/acp/persistent-bindings.resolve.ts and
    persistent-bindings.types.ts): one loop routes a conversation to a binding,
    another recovers the binding from the session key alone. */
module Bindings {
  import opened Text
  import opened SessionKeys
  import opened Conversations

  datatype AcpConfig = AcpConfig(mode: Option<string>, cwd: Option<string>, backend: Option<string>,
                                 labelText: Option<string>)

  /** An absent channel, account or peer id is the empty string. */
  datatype Binding = Binding(channel: string, accountId: string, peerId: string, agentId: Option<string>,
                             acp: AcpConfig)

  datatype RuntimeDefaults = RuntimeDefaults(acpAgentId: Option<string>, mode: Option<string>, cwd: Option<string>,
                                             backend: Option<string>)

  /** The configuration, with the agent look-ups and the 16-digit prefix of
      SHA-256 as functions. */
  datatype Env = Env(bindings: seq<Binding>, pickAgent: string -> string, runtime: string -> RuntimeDefaults,
                     hash: string -> string)

  datatype Mode = Persistent | OneShot

  datatype Spec = Spec(channel: Channel, accountId: string, conversationId: string,
                       parentConversationId: Option<string>,
                       agentId: string, acpAgentId: Option<string>, mode: Mode, cwd: Option<string>,
                       backend: Option<string>, labelText: Option<string>)

  datatype Record = Record(bindingId: string, targetSessionKey: string)

  datatype Resolved = Resolved(spec: Spec, record: Record)

  function NormalizeText(value: Option<string>): Option<string> {
    if value.None? || TrimJs(value.value) == "" then None else Some(TrimJs(value.value))
  }

  function NormalizeMode(value: Option<string>): Mode {
    var text := NormalizeText(value);
    if text.Some? && Lower(text.value) == "oneshot" then OneShot else Persistent
  }

  function OrElse<T>(a: Option<T>, b: Option<T>): Option<T> { if a.Some? then a else b }

  function AccountPriority(pattern: string, actual: string): nat {
    var trimmed := TrimJs(pattern);
    if trimmed == "" then if actual == DEFAULT_ACCOUNT_ID then 2 else 0
    else if trimmed == "*" then 1
    else if NormalizeAccountId(trimmed) == actual then 2
    else 0
  }

  function ToSpec(env: Env, channel: Channel, accountId: string, conversationId: string,
                  parent: Option<string>, b: Binding): Spec
  {
    var agentId := env.pickAgent(if b.agentId.Some? then b.agentId.value else "main");
    var defaults := env.runtime(agentId);
    var mode := NormalizeText(b.acp.mode);
    Spec(channel, NormalizeAccountId(accountId), conversationId, parent, agentId, NormalizeText(defaults.acpAgentId),
         if mode.Some? then NormalizeMode(mode) else NormalizeMode(defaults.mode),
         OrElse(NormalizeText(b.acp.cwd), defaults.cwd),
         OrElse(NormalizeText(b.acp.backend), defaults.backend),
         NormalizeText(b.acp.labelText))
  }

  function Digest(env: Env, channel: Channel, accountId: string, conversationId: string): string {
    env.hash(Name(channel) + ":" + accountId + ":" + conversationId)
  }

  function Key(env: Env, spec: Spec): string {
    MakeKey(SanitizeAgentId(spec.agentId), spec.channel, spec.accountId,
            Digest(env, spec.channel, spec.accountId, spec.conversationId))
  }

  function ToRecord(env: Env, spec: Spec): Record {
    Record("config:acp:" + Name(spec.channel) + ":" + spec.accountId + ":" + spec.conversationId, Key(env, spec))
  }

  /** A setting that says nothing. */
  predicate Unset(value: Option<string>) { value.None? || TrimJs(value.value) == "" }

  /** Working directory, backend and mode: what the binding says wins over the
      agent's defaults, which count where it says nothing. */
  lemma BindingWins(env: Env, channel: Channel, accountId: string, conversationId: string, parent: Option<string>,
                    b: Binding)
    ensures var spec := ToSpec(env, channel, accountId, conversationId, parent, b);
            var defaults := env.runtime(spec.agentId);
            && spec.channel == channel && spec.conversationId == conversationId && spec.parentConversationId == parent
            && spec.agentId == env.pickAgent(if b.agentId.Some? then b.agentId.value else "main")
            && (if Unset(b.acp.cwd) then spec.cwd == defaults.cwd else spec.cwd == Some(TrimJs(b.acp.cwd.value)))
            && (if Unset(b.acp.backend) then spec.backend == defaults.backend
                else spec.backend == Some(TrimJs(b.acp.backend.value)))
            && (spec.mode.OneShot? <==>
                  var mode := if Unset(b.acp.mode) then defaults.mode else b.acp.mode;
                  mode.Some? && Lower(TrimJs(mode.value)) == "oneshot")
            && (if Unset(b.acp.labelText) then spec.labelText == None
                else spec.labelText == Some(TrimJs(b.acp.labelText.value)))
            && (if Unset(defaults.acpAgentId) then spec.acpAgentId == None
                else spec.acpAgentId == Some(TrimJs(defaults.acpAgentId.value)))
  {
    if b.acp.mode.Some? { TrimTwice(b.acp.mode.value); }
    hide TrimJs, Lower, NormalizeAccountId;
    assert |"oneshot"| != 0;
    var defaults := env.runtime(ToSpec(env, channel, accountId, conversationId, parent, b).agentId);
    if defaults.mode.Some? && TrimJs(defaults.mode.value) == "" { LowerNothing(); }
  }

  lemma LowerNothing()
    ensures Lower("") == ""
  {
  }

  /** An account pattern names one account, where none written is the default
      account; or it is the wildcard. */
  lemma AccountPriorityIs(pattern: string, actual: string)
    ensures AccountPriority(pattern, actual) == 1 <==> TrimJs(pattern) == "*"
    ensures AccountPriority(pattern, actual) == 2 <==>
              TrimJs(pattern) != "*"
              && actual == if TrimJs(pattern) == "" then DEFAULT_ACCOUNT_ID else NormalizeAccountId(pattern)
  {
    TrimTwice(pattern);
    hide TrimJs, Canonicalize;
  }

  // ---- which conversation a binding is for ----

  predicate TopicScope(s: Scope) { s.GroupTopic? || s.GroupTopicSender? }

  predicate SupportedDirect(id: string) {
    var trimmed := TrimJs(id);
    trimmed != "" && ':' !in trimmed && !("oc_" <= trimmed) && !("on_" <= trimmed)
  }

  predicate Admissible(c: FeishuConversation) { TopicScope(c.scope) || SupportedDirect(c.canonicalId) }

  function ParentOf(c: FeishuConversation): Option<string> { if TopicScope(c.scope) then Some(c.chatId) else None }

  datatype Target = Target(conversationId: string, parent: Option<string>)

  /** The conversation a binding of this channel names, as recovery sees it. */
  function TargetOf(channel: Channel, b: Binding): Option<Target> {
    var id := TrimJs(b.peerId);
    if id == "" then None
    else match channel
      case Discord => Some(Target(id, None))
      case Feishu =>
        var parsed := ParseFeishu(id, "");
        if parsed.None? || !Admissible(parsed.value) then None
        else Some(Target(parsed.value.canonicalId, ParentOf(parsed.value)))
      case Telegram =>
        var parsed := ParseTelegram(id, "");
        if parsed.None? || !("-" <= parsed.value.chatId) then None
        else Some(Target(TelegramId(parsed.value), Some(parsed.value.chatId)))
  }

  /** An incoming conversation, parsed. */
  datatype Query =
    | DiscordQuery(id: string)
    | TelegramQuery(topic: TelegramTopic)
    | FeishuQuery(conversation: FeishuConversation)

  function ChannelOf(q: Query): Channel {
    match q
    case DiscordQuery(_) => Discord
    case TelegramQuery(_) => Telegram
    case FeishuQuery(_) => Feishu
  }

  datatype Selection = Selection(conversationId: string, parent: Option<string>, priority: nat)

  /** What routing makes of a binding of the query's channel. */
  function Select(q: Query, b: Binding): Option<Selection> {
    var id := TrimJs(b.peerId);
    if id == "" then None
    else match q
      case DiscordQuery(conversationId) =>
          if id != conversationId then None else Some(Selection(conversationId, None, 0))
      case TelegramQuery(topic) =>
        var target := ParseTelegram(id, "");
        if target.None? || !("-" <= target.value.chatId) || TelegramId(target.value) != TelegramId(topic) then None
        else Some(Selection(TelegramId(topic), Some(topic.chatId), 0))
      case FeishuQuery(c) =>
        var target := ParseFeishu(id, "");
        if target.None? || !Admissible(target.value) then None
        else
          var t := target.value;
          var same := t.canonicalId == c.canonicalId;
          var viaTopic := c.scope.GroupTopicSender? && t.scope.GroupTopic?
                          && c.chatId == t.chatId && c.topicId == t.topicId;
          if !same && !viaTopic then None
          else Some(Selection(if viaTopic then t.canonicalId else c.canonicalId, ParentOf(c), if same then 2 else 1))
  }

  // ---- routing ----

  predicate Candidate(env: Env, q: Query, account: string, i: nat) {
    && i < |env.bindings|
    && NormalizeChannel(env.bindings[i].channel) == Some(ChannelOf(q))
    && AccountPriority(env.bindings[i].accountId, account) > 0
    && Select(q, env.bindings[i]).Some?
  }

  predicate Exact(env: Env, account: string, i: nat)
    requires i < |env.bindings|
  {
    AccountPriority(env.bindings[i].accountId, account) == 2
  }

  function Priority(env: Env, q: Query, i: nat): nat
    requires i < |env.bindings| && Select(q, env.bindings[i]).Some?
  {
    Select(q, env.bindings[i]).value.priority
  }

  /** Among the first `n` bindings of one class, `i` has the highest priority
      and is the first to have it. */
  ghost predicate Best(env: Env, q: Query, account: string, exact: bool, i: nat, n: nat) {
    && i < n && Candidate(env, q, account, i) && Exact(env, account, i) == exact
    && forall j | 0 <= j < n && Candidate(env, q, account, j) && Exact(env, account, j) == exact ::
         && Priority(env, q, j) <= Priority(env, q, i)
         && (j < i ==> Priority(env, q, j) < Priority(env, q, i))
  }

  ghost predicate NoneOf(env: Env, q: Query, account: string, exact: bool, n: nat) {
    forall j | 0 <= j < n && Candidate(env, q, account, j) :: Exact(env, account, j) != exact
  }

  /** Routing prefers bindings that name the account to wildcards. */
  ghost predicate Chosen(env: Env, q: Query, account: string, i: nat) {
    var n := |env.bindings|;
    Best(env, q, account, true, i, n) || (NoneOf(env, q, account, true, n) && Best(env, q, account, false, i, n))
  }

  function ResolvedAt(env: Env, q: Query, account: string, i: nat): Resolved
    requires Candidate(env, q, account, i)
  {
    var s := Select(q, env.bindings[i]).value;
    var spec := ToSpec(env, ChannelOf(q), account, s.conversationId, s.parent, env.bindings[i]);
    Resolved(spec, ToRecord(env, spec))
  }

  ghost predicate RoutesTo(env: Env, q: Query, account: string, r: Option<Resolved>) {
    match r
    case None => forall i :: !Candidate(env, q, account, i)
    case Some(resolved) => exists i :: Chosen(env, q, account, i) && resolved == ResolvedAt(env, q, account, i)
  }

  datatype Match = Match(index: nat, selection: Selection)

  /** `m` is the best of its class among the first `n` bindings. */
  ghost predicate Tracks(env: Env, q: Query, account: string, exact: bool, m: Option<Match>, n: nat) {
    match m
    case None => NoneOf(env, q, account, exact, n)
    case Some(Match(i, selection)) =>
        Best(env, q, account, exact, i, n) && Select(q, env.bindings[i]) == Some(selection)
  }

  lemma TracksOn(env: Env, q: Query, account: string, exact: bool, m: Option<Match>, i: nat)
    requires Tracks(env, q, account, exact, m, i) && i < |env.bindings|
    ensures var takes := Candidate(env, q, account, i) && Exact(env, account, i) == exact
                         && (m.None? || Priority(env, q, i) > m.value.selection.priority);
            Tracks(env, q, account, exact, if takes then Some(Match(i, Select(q, env.bindings[i]).value)) else m, i + 1)
  {
    hide Select, AccountPriority, NormalizeChannel;
  }

  lemma NothingTracked(env: Env, q: Query, account: string)
    ensures Tracks(env, q, account, true, None, 0) && Tracks(env, q, account, false, None, 0)
  {
  }

  method ResolveBindingRecord(env: Env, q: Query, account: string) returns (r: Option<Resolved>)
    ensures RoutesTo(env, q, account, r)
  {
    hide Select, AccountPriority, NormalizeChannel, ToSpec, ToRecord, Best, NoneOf;
    var wildcardMatch: Option<Match>, exactMatch: Option<Match> := None, None;
    NothingTracked(env, q, account);
    for i := 0 to |env.bindings|
      invariant Tracks(env, q, account, true, exactMatch, i)
      invariant Tracks(env, q, account, false, wildcardMatch, i)
    {
      TracksOn(env, q, account, true, exactMatch, i);
      TracksOn(env, q, account, false, wildcardMatch, i);
      var binding := env.bindings[i];
      if NormalizeChannel(binding.channel) != Some(ChannelOf(q)) {
        continue;
      }
      var accountMatchPriority := AccountPriority(binding.accountId, account);
      if accountMatchPriority == 0 {
        continue;
      }
      var conversation := Select(q, binding);
      if conversation.None? {
        continue;
      }
      if accountMatchPriority == 2 {
        if exactMatch.None? || conversation.value.priority > exactMatch.value.selection.priority {
          exactMatch := Some(Match(i, conversation.value));
        }
        continue;
      }
      if wildcardMatch.None? || conversation.value.priority > wildcardMatch.value.selection.priority {
        wildcardMatch := Some(Match(i, conversation.value));
      }
    }
    FinalMatch(env, q, account, exactMatch, wildcardMatch);
    var found := if exactMatch.Some? then exactMatch else wildcardMatch;
    if found.None? {
      return None;
    }
    var s := found.value.selection;
    var spec := ToSpec(env, ChannelOf(q), account, s.conversationId, s.parent, env.bindings[found.value.index]);
    assert Resolved(spec, ToRecord(env, spec)) == ResolvedAt(env, q, account, found.value.index);
    return Some(Resolved(spec, ToRecord(env, spec)));
  }

  lemma FinalMatch(env: Env, q: Query, account: string, exactMatch: Option<Match>, wildcardMatch: Option<Match>)
    requires Tracks(env, q, account, true, exactMatch, |env.bindings|)
    requires Tracks(env, q, account, false, wildcardMatch, |env.bindings|)
    ensures var found := if exactMatch.Some? then exactMatch else wildcardMatch;
            match found
            case None => forall i :: !Candidate(env, q, account, i)
            case Some(Match(i, selection)) =>
              Chosen(env, q, account, i) && Candidate(env, q, account, i)
                  && Select(q, env.bindings[i]) == Some(selection)
  {
    hide Select, AccountPriority, NormalizeChannel;
  }

  // ---- recovery ----

  /** The spec recovery builds from binding `i` for this channel and account. */
  function SpecAt(env: Env, channel: Channel, account: string, i: nat): Option<Spec>
    requires i < |env.bindings|
  {
    var b := env.bindings[i];
    if NormalizeChannel(b.channel) != Some(channel) || AccountPriority(b.accountId, account) == 0 then None
    else
      var target := TargetOf(channel, b);
      if target.None? then None
      else Some(ToSpec(env, channel, account, target.value.conversationId, target.value.parent, b))
  }

  predicate Hit(env: Env, channel: Channel, account: string, key: string, i: nat) {
    && i < |env.bindings|
    && SpecAt(env, channel, account, i).Some?
    && Key(env, SpecAt(env, channel, account, i).value) == key
  }

  /** The first hit that names the account, or else the first hit. */
  ghost predicate FirstHit(env: Env, channel: Channel, account: string, key: string, i: nat) {
    && Hit(env, channel, account, key, i)
    && (forall j | 0 <= j < i && Hit(env, channel, account, key, j) ::
          Exact(env, account, i) && !Exact(env, account, j))
    && (!Exact(env, account, i) ==> forall j | Hit(env, channel, account, key, j) :: !Exact(env, account, j))
  }

  ghost predicate RecoversTo(env: Env, sessionKey: string, r: Option<Spec>) {
    var key := TrimJs(sessionKey);
    var parsed := ParseConfiguredKey(key);
    if key == "" || parsed.None? then r == None
    else
      var KeyParts(channel, account) := parsed.value;
      match r
      case None => forall i :: !Hit(env, channel, account, key, i)
      case Some(spec) => exists i ::
          FirstHit(env, channel, account, key, i) && SpecAt(env, channel, account, i) == Some(spec)
  }

  method ResolveSpecBySessionKey(env: Env, sessionKey: string) returns (r: Option<Spec>)
    ensures RecoversTo(env, sessionKey, r)
  {
    hide TrimJs, ParseConfiguredKey, NormalizeChannel, AccountPriority, TargetOf, ToSpec, Key;
    var key := TrimJs(sessionKey);
    if key == "" {
      return None;
    }
    var parsed := ParseConfiguredKey(key);
    if parsed.None? {
      return None;
    }
    var KeyParts(channel, account) := parsed.value;
    var wildcardMatch: Option<Spec> := None;
    ghost var first: nat := 0;
    for i := 0 to |env.bindings|
      invariant forall j | 0 <= j < i && Hit(env, channel, account, key, j) :: !Exact(env, account, j)
      invariant wildcardMatch.None? ==> forall j | 0 <= j < i :: !Hit(env, channel, account, key, j)
      invariant wildcardMatch.Some? ==> first < i && Hit(env, channel, account, key, first)
      invariant wildcardMatch.Some? ==> SpecAt(env, channel, account, first) == wildcardMatch
      invariant wildcardMatch.Some? ==> forall j | 0 <= j < first :: !Hit(env, channel, account, key, j)
    {
      var binding := env.bindings[i];
      if NormalizeChannel(binding.channel) != Some(channel) {
        continue;
      }
      var accountMatchPriority := AccountPriority(binding.accountId, account);
      if accountMatchPriority == 0 {
        continue;
      }
      var target := TargetOf(channel, binding);
      if target.None? {
        continue;
      }
      var spec := ToSpec(env, channel, account, target.value.conversationId, target.value.parent, binding);
      if Key(env, spec) == key {
        if accountMatchPriority == 2 {
          assert FirstHit(env, channel, account, key, i);
          return Some(spec);
        }
        if wildcardMatch.None? {
          wildcardMatch := Some(spec);
          first := i;
        }
      }
    }
    if wildcardMatch.Some? {
      assert FirstHit(env, channel, account, key, first);
    }
    return wildcardMatch;
  }
}
