/** The suppression ledger behind `shouldSkipAutoReply`,
    `markAutoReplySent` and `cleanupOldEntries`: the last auto-reply sent
    to each (user, contact) pair, swept of entries older than the
    duplicate window.  The module-level map is threaded through as a
    value and the sweep's `Date.now()` is the parameter `now`. */
module Ledger {

  /** `DUPLICATE_WINDOW_MS`: the same reply is not repeated within it. */
  const DuplicateWindowMs: int := 60000

  /** `RATE_LIMIT_MS`: minimum gap between two auto-replies to one contact. */
  const RateLimitMs: int := 5000

  /** The `${userId}:${contactId}` key, kept as a pair. */
  type Key = (string, string)

  datatype Entry = Entry(timestamp: int, replyId: string)

  type Store = map<Key, Entry>

  /** `AutoReplyContext`. */
  datatype Context = Context(
    userId: string,
    contactId: string,
    conversationId: string,
    messageText: string,
    timestamp: int)

  function KeyOf(ctx: Context): Key { (ctx.userId, ctx.contactId) }

  /** An entry survives a sweep at `now` unless it is more than the
      duplicate window old. */
  predicate Fresh(e: Entry, now: int) { now - e.timestamp <= DuplicateWindowMs }

  /** `cleanupOldEntries`: drops exactly the stale entries and keeps the
      others untouched. */
  function Cleanup(store: Store, now: int): (r: Store)
    ensures forall k :: k in r <==> k in store && Fresh(store[k], now)
    ensures forall k :: k in r ==> r[k] == store[k]
  {
    map k | k in store && Fresh(store[k], now) :: store[k]
  }

  /** Sweeping twice is sweeping once at the later time. */
  lemma CleanupComposes(store: Store, t1: int, t2: int)
    requires t1 <= t2
    ensures Cleanup(Cleanup(store, t1), t2) == Cleanup(store, t2)
  {
    var a := Cleanup(Cleanup(store, t1), t2);
    var b := Cleanup(store, t2);
    assert forall k :: k in a <==> k in b;
  }

  datatype SkipCheck = SkipCheck(skip: bool, store: Store)

  /** `shouldSkipAutoReply`: sweeps the ledger, then skips when the pair
      was answered less than 5 s ago, or answered with this very reply
      less than 60 s ago.  Elapsed time is measured from the message's
      own timestamp, while the sweep uses the clock. */
  function ShouldSkip(store: Store, ctx: Context, replyId: string, now: int): (r: SkipCheck)
    ensures r.store == Cleanup(store, now)
    ensures !r.skip <==>
      || KeyOf(ctx) !in store
      || !Fresh(store[KeyOf(ctx)], now)
      || (ctx.timestamp - store[KeyOf(ctx)].timestamp >= RateLimitMs
          && (store[KeyOf(ctx)].replyId != replyId
              || ctx.timestamp - store[KeyOf(ctx)].timestamp >= DuplicateWindowMs))
  {
    var swept := Cleanup(store, now);
    var key := KeyOf(ctx);
    if key !in swept then SkipCheck(false, swept)
    else
      var recent := swept[key];
      var elapsed := ctx.timestamp - recent.timestamp;
      if elapsed < RateLimitMs then SkipCheck(true, swept)
      else if recent.replyId == replyId && elapsed < DuplicateWindowMs then SkipCheck(true, swept)
      else SkipCheck(false, swept)
  }

  /** `markAutoReplySent`: records the reply for the pair, replacing any
      earlier entry, and touches no other pair. */
  function MarkSent(store: Store, ctx: Context, replyId: string): (r: Store)
    ensures KeyOf(ctx) in r && r[KeyOf(ctx)] == Entry(ctx.timestamp, replyId)
    ensures r.Keys == store.Keys + {KeyOf(ctx)}
    ensures forall k :: k in store && k != KeyOf(ctx) ==> r[k] == store[k]
  {
    store[KeyOf(ctx) := Entry(ctx.timestamp, replyId)]
  }
}
