/** `processAutoReply`: match, then consult the ledger, then record the
    reply that is about to go out. */
module AutoReply {
  import opened Common
  import opened Text
  import opened Matcher
  import opened Ledger

  datatype Reply = Reply(reply: QuickReply, matchType: MatchType, score: real)

  /** What one call returns, with the ledger as it stands afterwards. */
  datatype Outcome = Outcome(result: Option<Reply>, store: Store)

  /** `processAutoReply`.  The sweep only runs when a match was found,
      because it lives inside the skip check. */
  function ProcessAutoReply(store: Store, ctx: Context, replies: seq<QuickReply>, now: int): (o: Outcome)
    ensures FindBestMatch(ctx.messageText, replies).None? ==> o == Outcome(None, store)
    ensures o.result.Some? ==>
      var m := FindBestMatch(ctx.messageText, replies);
      && m.Some?
      && o.result.value == Reply(m.value.reply, m.value.matchType, m.value.score)
      && !ShouldSkip(store, ctx, m.value.reply.id, now).skip
    ensures o.result.Some? <==>
      FindBestMatch(ctx.messageText, replies).Some?
      && !ShouldSkip(store, ctx, FindBestMatch(ctx.messageText, replies).value.reply.id, now).skip
  {
    var m := FindBestMatch(ctx.messageText, replies);
    if m.None? then Outcome(None, store)
    else
      var check := ShouldSkip(store, ctx, m.value.reply.id, now);
      if check.skip then Outcome(None, check.store)
      else
        Outcome(Some(Reply(m.value.reply, m.value.matchType, m.value.score)),
                MarkSent(check.store, ctx, m.value.reply.id))
  }

  /** The pair's entry is written only when a reply goes out; either way
      the sweep drops only stale entries, and every other entry stays as
      it was. */
  lemma WritesOnlyOnReply(store: Store, ctx: Context, replies: seq<QuickReply>, now: int)
    ensures var o := ProcessAutoReply(store, ctx, replies, now);
      o.result.None? ==>
        && (forall k :: k in o.store ==> k in store && o.store[k] == store[k])
        && (forall k :: k in store && Fresh(store[k], now) ==> k in o.store)
    ensures var o := ProcessAutoReply(store, ctx, replies, now);
      o.result.Some? ==>
        && o.store[KeyOf(ctx)] == Entry(ctx.timestamp, o.result.value.reply.id)
        && (forall k :: k in o.store && k != KeyOf(ctx) ==> k in store && o.store[k] == store[k])
        && (forall k :: k in store && Fresh(store[k], now) ==> k in o.store)
  {
  }

  /** An entry that survives the sweep is only ever replaced by one at
      least `RATE_LIMIT_MS` younger (by message timestamp), and by the
      same reply only after the whole duplicate window. */
  lemma ReplacementRespectsLimits(store: Store, ctx: Context, replies: seq<QuickReply>, now: int)
    requires KeyOf(ctx) in store && Fresh(store[KeyOf(ctx)], now)
    ensures var o := ProcessAutoReply(store, ctx, replies, now);
      o.result.Some? ==>
        && o.store[KeyOf(ctx)].timestamp - store[KeyOf(ctx)].timestamp >= RateLimitMs
        && (o.store[KeyOf(ctx)].replyId == store[KeyOf(ctx)].replyId ==>
              o.store[KeyOf(ctx)].timestamp - store[KeyOf(ctx)].timestamp >= DuplicateWindowMs)
  {
  }

  /** Calls that are answered leave an entry that a new message from the
      same pair sees: anything inside the cooldown is suppressed. */
  lemma CooldownAfterReply(store: Store, ctx: Context, replies: seq<QuickReply>, now: int,
                           ctx2: Context, replies2: seq<QuickReply>, now2: int)
    requires ProcessAutoReply(store, ctx, replies, now).result.Some?
    requires KeyOf(ctx2) == KeyOf(ctx)
    requires 0 <= ctx2.timestamp - ctx.timestamp < RateLimitMs
    requires now2 - ctx.timestamp <= DuplicateWindowMs
    ensures ProcessAutoReply(ProcessAutoReply(store, ctx, replies, now).store, ctx2, replies2, now2).result.None?
  {
  }

  /** A message whose best match is the reply already sent to the pair
      inside the duplicate window gets no reply, and the entry stays. */
  lemma SameReplySuppressed(store: Store, ctx: Context, replies: seq<QuickReply>, now: int, m: MatchResult)
    requires FindBestMatch(ctx.messageText, replies) == Some(m)
    requires KeyOf(ctx) in store && store[KeyOf(ctx)].replyId == m.reply.id
    requires Fresh(store[KeyOf(ctx)], now)
    requires ctx.timestamp - store[KeyOf(ctx)].timestamp < DuplicateWindowMs
    ensures ProcessAutoReply(store, ctx, replies, now).result.None?
    ensures var s := ProcessAutoReply(store, ctx, replies, now).store;
      KeyOf(ctx) in s && s[KeyOf(ctx)] == store[KeyOf(ctx)]
  {
  }
}
