/**
 * `useChats` and `useChatMessages`: the displayed collection derived from a
 * one-shot query (the snapshot) and a subscription (the live feed).
 * A source that has delivered a list is `Some(list)`, even when the list is
 * empty: an empty JavaScript array is truthy, so it still wins the `||`.
 */
module Sync {
  import opened Wrappers
  import opened Entities

  /** `feed || snapshot || []`. */
  function Reconcile<T>(feed: Option<seq<T>>, snapshot: Option<seq<T>>): (shown: seq<T>)
    ensures feed.Some? ==> shown == feed.value
    ensures feed.None? ==> shown == snapshot.GetOr([])
    ensures shown == feed.GetOr([]) || shown == snapshot.GetOr([])
  {
    if feed.Some? then feed.value else if snapshot.Some? then snapshot.value else []
  }

  /** The latest value each source has delivered for the current scope. */
  datatype Sources<T> = Sources(snapshot: Option<seq<T>>, feed: Option<seq<T>>)

  datatype Delivery<T> = SnapshotLoaded(rows: seq<T>) | FeedEmitted(rows: seq<T>)

  /** Each delivery replaces what its source delivered before. */
  function Deliver<T>(src: Sources<T>, d: Delivery<T>): Sources<T> {
    match d
    case SnapshotLoaded(rows) => src.(snapshot := Some(rows))
    case FeedEmitted(rows) => src.(feed := Some(rows))
  }

  /** The sources after a history of deliveries for one scope, oldest first. */
  function Replay<T>(history: seq<Delivery<T>>): Sources<T>
    decreases |history|
  {
    if |history| == 0 then Sources(None, None)
    else Deliver(Replay(history[..|history| - 1]), history[|history| - 1])
  }

  /** The rows of the most recent feed emission in `history`, if any. */
  function LastFeed<T>(history: seq<Delivery<T>>): Option<seq<T>>
    decreases |history|
  {
    if |history| == 0 then None
    else if history[|history| - 1].FeedEmitted? then Some(history[|history| - 1].rows)
    else LastFeed(history[..|history| - 1])
  }

  /** The rows of the most recent snapshot in `history`, if any. */
  function LastSnapshot<T>(history: seq<Delivery<T>>): Option<seq<T>>
    decreases |history|
  {
    if |history| == 0 then None
    else if history[|history| - 1].SnapshotLoaded? then Some(history[|history| - 1].rows)
    else LastSnapshot(history[..|history| - 1])
  }

  /** Replaying a history keeps exactly the latest delivery of each source. */
  lemma {:induction false} ReplayKeepsLatest<T>(history: seq<Delivery<T>>)
    ensures Replay(history) == Sources(LastSnapshot(history), LastFeed(history))
    decreases |history|
  {
    if |history| > 0 {
      ReplayKeepsLatest(history[..|history| - 1]);
    }
  }

  /**
   * Once the feed has emitted, the list shown is its latest emission, whatever
   * snapshots arrived before or after; until then it is the latest snapshot, or [].
   */
  lemma {:induction false} ShownFollowsLatestFeed<T>(history: seq<Delivery<T>>)
    ensures LastFeed(history).Some? ==>
      Reconcile(Replay(history).feed, Replay(history).snapshot) == LastFeed(history).value
    ensures LastFeed(history).None? ==>
      Reconcile(Replay(history).feed, Replay(history).snapshot) == LastSnapshot(history).GetOr([])
  {
    ReplayKeepsLatest(history);
  }

  /** `useChats`: the chat list shown in the sidebar. */
  function ChatsShown(src: Sources<Chat>): (chats: seq<Chat>)
    ensures src.feed.Some? ==> chats == src.feed.value
    ensures src.feed.None? ==> chats == src.snapshot.GetOr([])
  {
    Reconcile(src.feed, src.snapshot)
  }

  /**
   * `useChatMessages`: with an empty chat id both the query and the
   * subscription are skipped and nothing is delivered, so the list is [].
   */
  function MessagesShown(chatId: string, src: Sources<Message>): (messages: seq<Message>)
    ensures chatId == "" ==> messages == []
    ensures chatId != "" && src.feed.Some? ==> messages == src.feed.value
    ensures chatId != "" && src.feed.None? ==> messages == src.snapshot.GetOr([])
  {
    var delivered := if chatId == "" then Sources(None, None) else src;
    Reconcile(delivered.feed, delivered.snapshot)
  }
}
