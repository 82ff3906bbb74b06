/**
 * The mutation helpers of the hooks module: `useCreateChat`, `useDeleteChat`
 * and `useSendMessage`. Each awaited backend call is one step whose outcome is
 * a parameter; a run records the requests issued, in order, and how the call ended.
 */
module Mutations {
  import opened Wrappers
  import opened Entities

  /** What `insert_chats_one` yields: the new chat's row, which may be absent. */
  datatype NewChat = NewChat(id: string)

  datatype CreateOutcome = CreateThrows(reason: string) | CreateReturns(row: Option<NewChat>)

  datatype CreateRun = CreateRun(requests: seq<Request>, completion: Completion<Option<NewChat>>)

  /** `createChat`: authentication check, then one insert whose error is rethrown. */
  function CreateChat(user: Option<User>, outcome: CreateOutcome): (run: CreateRun)
    ensures !IsAuthenticated(user) ==> run == CreateRun([], Thrown(NotAuthenticated))
    ensures IsAuthenticated(user) ==> run.requests == [InsertChat]
    ensures IsAuthenticated(user) && outcome.CreateThrows? ==>
      run.completion == Thrown(Backend(outcome.reason))
    ensures IsAuthenticated(user) && outcome.CreateReturns? ==>
      run.completion == Returned(outcome.row)
  {
    if !IsAuthenticated(user) then CreateRun([], Thrown(NotAuthenticated))
    else
      match outcome
      case CreateThrows(reason) => CreateRun([InsertChat], Thrown(Backend(reason)))
      case CreateReturns(row) => CreateRun([InsertChat], Returned(row))
  }

  /**
   * `createChat` fails with "not authenticated" exactly when nothing was
   * requested, and it returns only a row the single insert handed back.
   */
  lemma CreateChatGuard(user: Option<User>, outcome: CreateOutcome)
    ensures CreateChat(user, outcome).requests == [] <==> !IsAuthenticated(user)
    ensures CreateChat(user, outcome).completion == Thrown(NotAuthenticated) <==> !IsAuthenticated(user)
    ensures CreateChat(user, outcome).completion.Returned? ==>
      && IsAuthenticated(user)
      && CreateChat(user, outcome).requests == [InsertChat]
      && outcome == CreateReturns(CreateChat(user, outcome).completion.value)
  {
  }

  datatype DeleteOutcome = DeleteThrows(reason: string) | DeleteSucceeds

  datatype DeleteRun = DeleteRun(requests: seq<Request>, completion: Completion<()>)

  /** `deleteChat`: one delete by id, no authentication check, errors rethrown. */
  function DeleteChatRun(chatId: string, outcome: DeleteOutcome): (run: DeleteRun)
    ensures run.requests == [DeleteChat(chatId)]
    ensures run.completion.Thrown? <==> outcome.DeleteThrows?
    ensures outcome.DeleteThrows? ==> run.completion.failure == Backend(outcome.reason)
  {
    match outcome
    case DeleteThrows(reason) => DeleteRun([DeleteChat(chatId)], Thrown(Backend(reason)))
    case DeleteSucceeds => DeleteRun([DeleteChat(chatId)], Returned(()))
  }

  /** The `sendMessage` action's reply payload. */
  datatype ActionOutput = ActionOutput(success: bool, message: Option<string>, error: Option<string>)

  /**
   * How the two awaited calls of a send end: the insert throws, or it succeeds and
   * the action then throws, or the action returns (`data?.sendMessage`, maybe absent).
   */
  datatype SendOutcome =
    | InsertThrows(reason: string)
    | ActionThrows(reason: string)
    | ActionReturns(data: Option<ActionOutput>)

  /**
   * A send attempt: the requests in order, every value written to the hook's
   * `loading` flag in order, and how the call ended.
   */
  datatype SendRun = SendRun(requests: seq<Request>, loadingWrites: seq<bool>,
                             completion: Completion<Option<ActionOutput>>)

  /** The user-authored message the hook persists first. */
  function UserMessage(chatId: string, content: string): Request {
    InsertMessage(chatId, content, false)
  }

  /** Issue the insert, then (unless it threw) the reply action; no flag handling. */
  function InsertThenAct(userId: string, chatId: string, content: string, outcome: SendOutcome)
    : (seq<Request>, Completion<Option<ActionOutput>>)
  {
    var insert := UserMessage(chatId, content);
    match outcome
    case InsertThrows(reason) => ([insert], Thrown(Backend(reason)))
    case ActionThrows(reason) =>
      ([insert, SendMessageAction(chatId, content, userId)], Thrown(Backend(reason)))
    case ActionReturns(data) =>
      ([insert, SendMessageAction(chatId, content, userId)], Returned(data))
  }

  /** `sendMessage`: auth check, then `setLoading(true)`, the two calls, and `finally setLoading(false)`. */
  function SendMessage(user: Option<User>, chatId: string, content: string, outcome: SendOutcome)
    : (run: SendRun)
    ensures !IsAuthenticated(user) ==> run == SendRun([], [], Thrown(NotAuthenticated))
    ensures IsAuthenticated(user) ==> run.loadingWrites == [true, false]
    ensures IsAuthenticated(user) ==>
      1 <= |run.requests| <= 2 && run.requests[0] == UserMessage(chatId, content)
    ensures IsAuthenticated(user) && outcome.InsertThrows? ==>
      run.requests == [UserMessage(chatId, content)]
        && run.completion == Thrown(Backend(outcome.reason))
    ensures IsAuthenticated(user) && !outcome.InsertThrows? ==>
      run.requests == [UserMessage(chatId, content),
                       SendMessageAction(chatId, content, user.value.id)]
    ensures IsAuthenticated(user) && outcome.ActionThrows? ==>
      run.completion == Thrown(Backend(outcome.reason))
    ensures IsAuthenticated(user) && outcome.ActionReturns? ==>
      run.completion == Returned(outcome.data)
  {
    if !IsAuthenticated(user) then SendRun([], [], Thrown(NotAuthenticated))
    else
      var (requests, completion) := InsertThenAct(user.value.id, chatId, content, outcome);
      SendRun(requests, [true, false], completion)
  }

  /** The action is never requested unless the insert was requested right before it. */
  lemma ActionFollowsInsert(user: Option<User>, chatId: string, content: string,
                            outcome: SendOutcome, k: nat)
    requires k < |SendMessage(user, chatId, content, outcome).requests|
    requires SendMessage(user, chatId, content, outcome).requests[k].SendMessageAction?
    ensures k > 0
    ensures SendMessage(user, chatId, content, outcome).requests[k - 1]
         == UserMessage(chatId, content)
  {
  }

  /**
   * A reply action that reports `success = false` is handed back to the
   * caller, not thrown; only a throwing call makes the send throw.
   */
  lemma UnsuccessfulReplyIsReturned(user: User, chatId: string, content: string,
                                    out: ActionOutput)
    requires IsAuthenticated(Some(user)) && !out.success
    ensures SendMessage(Some(user), chatId, content, ActionReturns(Some(out))).completion
         == Returned(Some(out))
  {
  }
}
