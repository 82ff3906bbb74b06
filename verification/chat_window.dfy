/**
 * The chat window's composer: `handleSendMessage`, the submit-button
 * predicate, the Enter-key rule, and the header label.
 */
module ChatWindow {
  import opened Wrappers
  import opened Text
  import opened Entities
  import opened Mutations

  /**
   * The composer's state: the text box, the typing indicator, and the send
   * hook's `loading` flag, which the component reads as `sendingMessage`.
   */
  datatype Composer = Composer(input: string, typing: bool, sending: bool)

  /** The guard at the top of `handleSendMessage`: trimmed text present and no send in flight. */
  predicate AcceptsSubmit(c: Composer) {
    Trim(c.input) != "" && !c.sending
  }

  /** The send button's `disabled` expression, written separately in the markup. */
  predicate SubmitDisabled(c: Composer) {
    Trim(c.input) == "" || c.sending
  }

  /**
   * A submission either does nothing, or records the text handed to
   * `sendMessage`, the state while the send is pending, the hook's run, and
   * the state once it has settled.
   */
  datatype Submission =
    | Ignored
    | Submitted(content: string, pending: Composer, run: SendRun, settled: Composer)

  /** The flag the hook leaves after its run: the last value it wrote, else the old one. */
  function LoadingAfter(writes: seq<bool>, before: bool): bool {
    if |writes| == 0 then before else writes[|writes| - 1]
  }

  /** The flag while the awaited calls are pending: the first value written, else the old one. */
  function LoadingDuring(writes: seq<bool>, before: bool): bool {
    if |writes| == 0 then before else writes[0]
  }

  /**
   * `handleSendMessage`: guard; take the trimmed text; clear the box; raise
   * the typing indicator; await `sendMessage`; on a throw put the trimmed text
   * back; finally lower the indicator.
   */
  function Submit(c: Composer, user: Option<User>, chatId: string, outcome: SendOutcome)
    : (s: Submission)
    ensures s.Ignored? <==> !AcceptsSubmit(c)
    ensures s.Submitted? ==> s.content == Trim(c.input) && s.content != ""
    ensures s.Submitted? ==> s.run == SendMessage(user, chatId, s.content, outcome)
    ensures s.Submitted? ==> s.pending.input == "" && s.pending.typing
    ensures s.Submitted? ==> (s.pending.sending <==> IsAuthenticated(user))
    ensures s.Submitted? ==> !s.settled.typing && !s.settled.sending
    ensures s.Submitted? && s.run.completion.Returned? ==> s.settled.input == ""
    ensures s.Submitted? && s.run.completion.Thrown? ==> s.settled.input == Trim(c.input)
  {
    if !(Trim(c.input) != "" && !c.sending) then Ignored
    else
      var content := Trim(c.input);
      var run := SendMessage(user, chatId, content, outcome);
      var cleared := c.(input := "", typing := true);
      var pending := cleared.(sending := LoadingDuring(run.loadingWrites, cleared.sending));
      var restored := if run.completion.Thrown? then pending.(input := content) else pending;
      var settled := restored.(typing := false, sending := LoadingAfter(run.loadingWrites, pending.sending));
      Submitted(content, pending, run, settled)
  }

  /** The button is disabled exactly when the handler's guard would ignore the submission. */
  lemma DisabledIffIgnored(c: Composer, user: Option<User>, chatId: string, outcome: SendOutcome)
    ensures SubmitDisabled(c) <==> Submit(c, user, chatId, outcome).Ignored?
  {
  }

  /**
   * A failed send restores the trimmed text, not the raw text: the two differ
   * whenever the input had surrounding spaces.
   */
  lemma FailureRestoresTrimmed(c: Composer, user: Option<User>, chatId: string, reason: string)
    requires AcceptsSubmit(c)
    ensures Submit(c, user, chatId, InsertThrows(reason)).settled.input == Trim(c.input)
    ensures Submit(c, user, chatId, ActionThrows(reason)).settled.input == Trim(c.input)
  {
  }

  /** `e.key === 'Enter' && !e.shiftKey`: the key press that submits. */
  function KeyPress(c: Composer, key: string, shift: bool, user: Option<User>, chatId: string,
                    outcome: SendOutcome): (s: Option<Submission>)
    ensures s.Some? <==> key == "Enter" && !shift
    ensures s.Some? ==> s.value == Submit(c, user, chatId, outcome)
  {
    if key == "Enter" && !shift then Some(Submit(c, user, chatId, outcome)) else None
  }

  /** The header: "Chat #" and the last eight characters of the id, or the whole id if shorter. */
  function HeaderLabel(chatId: string): (title: string)
    ensures |title| == 6 + (if |chatId| < 8 then |chatId| else 8)
    ensures title[..6] == "Chat #"
    ensures title[6..] == chatId[|chatId| - (|title| - 6)..]
  {
    "Chat #" + SliceLast(chatId, 8)
  }
}
