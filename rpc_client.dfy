/**
 * The request-building and response-tagging parts of the RPC client:
 * parsing `package-id::action[::target]` command-line actions, the status
 * request's target, the tag given to each transaction response before it is
 * handed to a host callback, and the one-shot cancel slot shared between
 * `pahkat_rpc_process_transaction` and `pahkat_rpc_cancel_callback`.
 */
module RpcClient {
  import opened Common
  import opened StrSplit

  /** `pb::PackageAction`: action 0 installs, 1 uninstalls; target 0 is system, 1 is user. */
  datatype PackageAction = PackageAction(id: string, action: int, target: int)

  /** `pb::StatusRequest`. */
  datatype StatusRequest = StatusRequest(packageId: string, target: int)

  // ---------------------------------------------------------------------------
  // Actions from the command line
  // ---------------------------------------------------------------------------

  /** The next item of the split iterator after `k` calls, or `default` once it is exhausted. */
  function PieceOr(pieces: seq<string>, k: nat, default: string): string
  {
    if k < |pieces| then pieces[k] else default
  }

  /**
   * One `package-id::action[::target]` string as a `PackageAction`: the id is the text
   * before the first `::`, and both codes are 0 or 1.
   */
  function ParseAction(s: string): (r: PackageAction)
    ensures r.action == 0 || r.action == 1
    ensures r.target == 0 || r.target == 1
    ensures !HasSeparator(r.id)
    ensures forall i | 0 <= i < |r.id| :: !SeparatorAt(s, i)
    ensures r.id == s || (|r.id| + 2 <= |s| && s[..|r.id| + 2] == r.id + "::")
  {
    var pieces := Split(s);
    SplitWellFormed(s);
    var id := pieces[0];
    var action := if PieceOr(pieces, 1, "install") == "install" then 0 else 1;
    var target := if PieceOr(pieces, 2, "system") != "user" then 0 else 1;
    PackageAction(id, action, target)
  }

  /** The `ProcessTransaction` arm: one action per input string, in input order. */
  function ParseActions(actions: seq<string>): (r: seq<PackageAction>)
    ensures |r| == |actions|
    ensures forall k | 0 <= k < |actions| :: r[k] == ParseAction(actions[k])
  {
    if actions == [] then [] else [ParseAction(actions[0])] + ParseActions(actions[1..])
  }

  /**
   * Read from the writer's side: for well-formed pieces, the id is the first piece, the
   * action is 1 exactly when a second piece is present and is not `install`, and the
   * target is 1 exactly when a third piece is present and is `user`.
   */
  lemma ParseJoinedPieces(pieces: seq<string>)
    requires WellFormed(pieces)
    ensures ParseAction(Join(pieces)) == PackageAction(
              pieces[0],
              if |pieces| > 1 && pieces[1] != "install" then 1 else 0,
              if |pieces| > 2 && pieces[2] == "user" then 1 else 0)
  {
    SplitJoin(pieces);
  }

  /** Pieces after the third change nothing. */
  lemma ExtraPiecesIgnored(pieces: seq<string>)
    requires WellFormed(pieces) && |pieces| > 3
    ensures ParseAction(Join(pieces)) == ParseAction(Join(pieces[..3]))
  {
    assert WellFormed(pieces[..3]) by {
      forall k | 0 <= k < 3 ensures pieces[..3][k] == pieces[k] { }
    }
    ParseJoinedPieces(pieces);
    ParseJoinedPieces(pieces[..3]);
  }

  /** A bare package id installs for the system. */
  lemma BareIdInstallsForSystem(id: string)
    requires !HasSeparator(id)
    ensures ParseAction(id) == PackageAction(id, 0, 0)
  {
  }

  // ---------------------------------------------------------------------------
  // The status command
  // ---------------------------------------------------------------------------

  /** The `Status` arm: target 1 exactly for `user`, 0 for anything else. */
  function StatusRequestFor(packageId: string, target: string): (r: StatusRequest)
    ensures r.packageId == packageId
    ensures r.target == 1 <==> target == "user"
    ensures r.target == 0 <==> target != "user"
  {
    StatusRequest(packageId, if target == "user" then 1 else 0)
  }

  /** An action's third piece maps to the same code as the status command's target. */
  lemma ActionTargetMatchesStatusTarget(id: string, action: string, target: string)
    requires WellFormed([id, action, target])
    ensures ParseAction(Join([id, action, target])).target == StatusRequestFor(id, target).target
  {
    ParseJoinedPieces([id, action, target]);
  }

  // ---------------------------------------------------------------------------
  // Transaction responses handed to the host callback
  // ---------------------------------------------------------------------------

  /** `pb::transaction_response::Value`; each variant's message fields are of type `M`. */
  datatype TransactionResponseValue<M> =
    | TransactionStarted(message: M)
    | TransactionError(message: M)
    | TransactionComplete(message: M)
    | TransactionProgress(message: M)
    | DownloadProgress(message: M)
    | DownloadComplete(message: M)
    | InstallStarted(message: M)
    | UninstallStarted(message: M)

  /** `CallbackTransactionResponse`: the value together with its `type` tag. */
  datatype CallbackTransactionResponse<M> = CallbackTransactionResponse(ty: string, value: TransactionResponseValue<M>)

  /** The eight tags, one per variant. */
  const ResponseTypes: seq<string> := [
    "TransactionStarted", "TransactionError", "TransactionComplete", "TransactionProgress",
    "DownloadProgress", "DownloadComplete", "InstallStarted", "UninstallStarted"]

  /** `From<pb::transaction_response::Value>`: keep the value and tag it with its variant's name. */
  function ToCallbackResponse<M>(response: TransactionResponseValue<M>): (r: CallbackTransactionResponse<M>)
    ensures r.value == response
    ensures r.ty in ResponseTypes
  {
    match response
    case TransactionStarted(_) => CallbackTransactionResponse("TransactionStarted", response)
    case TransactionError(_) => CallbackTransactionResponse("TransactionError", response)
    case TransactionComplete(_) => CallbackTransactionResponse("TransactionComplete", response)
    case TransactionProgress(_) => CallbackTransactionResponse("TransactionProgress", response)
    case DownloadProgress(_) => CallbackTransactionResponse("DownloadProgress", response)
    case DownloadComplete(_) => CallbackTransactionResponse("DownloadComplete", response)
    case InstallStarted(_) => CallbackTransactionResponse("InstallStarted", response)
    case UninstallStarted(_) => CallbackTransactionResponse("UninstallStarted", response)
  }

  /** The variant a host reads back from a tag and the message fields. */
  function FromTagged<M>(ty: string, message: M): (r: Option<TransactionResponseValue<M>>)
    ensures r.Some? <==> ty in ResponseTypes
  {
    if ty == "TransactionStarted" then Some(TransactionStarted(message))
    else if ty == "TransactionError" then Some(TransactionError(message))
    else if ty == "TransactionComplete" then Some(TransactionComplete(message))
    else if ty == "TransactionProgress" then Some(TransactionProgress(message))
    else if ty == "DownloadProgress" then Some(DownloadProgress(message))
    else if ty == "DownloadComplete" then Some(DownloadComplete(message))
    else if ty == "InstallStarted" then Some(InstallStarted(message))
    else if ty == "UninstallStarted" then Some(UninstallStarted(message))
    else None
  }

  /** The tag names the variant: a host recovers every response from its tag and fields. */
  lemma TagIdentifiesVariant<M>(response: TransactionResponseValue<M>)
    ensures FromTagged(ToCallbackResponse(response).ty, response.message) == Some(response)
  {
  }

  /** Different variants never share a tag. */
  lemma TagsDistinct<M>(a: TransactionResponseValue<M>, b: TransactionResponseValue<M>)
    requires ToCallbackResponse(a).ty == ToCallbackResponse(b).ty
    ensures a.(message := b.message) == b
  {
    TagIdentifiesVariant(a);
    TagIdentifiesVariant(b);
  }

  // ---------------------------------------------------------------------------
  // The cancel slot
  // ---------------------------------------------------------------------------

  /** `pb::TransactionRequest` values a transaction's request stream carries. */
  datatype TransactionRequest = Transaction(actions: seq<PackageAction>) | Cancel

  /** The sending half of an unbounded channel; `sent` is everything it has carried. */
  class Sender {
    var sent: seq<TransactionRequest>

    constructor ()
      ensures sent == []
    {
      sent := [];
    }

    method Send(request: TransactionRequest)
      modifies this
      ensures sent == old(sent) + [request]
    {
      sent := sent + [request];
    }
  }

  /** `CURRENT_CANCEL_TX`: the sender of the latest transaction, until a cancel takes it. */
  class CancelSlot {
    var current: Option<Sender>

    constructor ()
      ensures current == None
    {
      current := None;
    }

    /**
     * `pahkat_rpc_process_transaction`: open a channel, put (a clone of) its sender in the
     * slot, replacing any earlier one, then send the transaction.
     */
    method ProcessTransaction(actions: seq<PackageAction>) returns (tx: Sender)
      modifies this
      ensures fresh(tx) && current == Some(tx)
      ensures tx.sent == [Transaction(actions)]
    {
      tx := new Sender();
      current := Some(tx);
      tx.Send(Transaction(actions));
    }

    /** `pahkat_rpc_cancel_callback`: take the sender out of the slot and, if there was one, send `Cancel`. */
    method CancelCallback()
      modifies this, if current.Some? then {current.value} else {}
      ensures current == None
      ensures old(current).Some? ==> old(current).value.sent == old(current.value.sent) + [Cancel]
    {
      var taken := current;
      current := None;
      match taken {
        case Some(tx) => tx.Send(Cancel);
        case None =>
      }
    }
  }

  /**
   * The slot is one-shot per transaction: after two transactions, two cancels reach only
   * the latest, exactly once; the earlier one carries only its transaction.
   */
  method CancelReachesLatestOnce(first: seq<PackageAction>, second: seq<PackageAction>)
    returns (sentFirst: seq<TransactionRequest>, sentSecond: seq<TransactionRequest>)
    ensures sentFirst == [Transaction(first)]
    ensures sentSecond == [Transaction(second), Cancel]
  {
    var slot := new CancelSlot();
    var tx1 := slot.ProcessTransaction(first);
    var tx2 := slot.ProcessTransaction(second);
    slot.CancelCallback();
    slot.CancelCallback();
    sentFirst, sentSecond := tx1.sent, tx2.sent;
  }
}
