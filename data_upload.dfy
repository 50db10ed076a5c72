/** The CSV upload panel: the chosen file, the upload status and the
    message under the button (frontent/src/components/DataUpload.js). */
module DataUpload {
  import opened Wrappers

  /** The four values of `status`. */
  datatype Status = Idle | Uploading | Succeeded | Failed

  /** A file chosen in the picker; only its name is shown. */
  datatype File = File(name: string)

  /** How the upload request settled. A reply without a `message` field is
      `Accepted(None)`; a failure carries the `error` field of the reply, if
      any. */
  datatype Reply = Accepted(message: Option<string>) | Rejected(serverError: Option<string>)

  const SuccessPrefix := "Succès : "
  const FailureFallback := "Erreur lors de l'envoi"

  /** The message shown once the upload has settled. A missing success
      message is interpolated as `undefined`; an absent or empty server
      error gives the fallback. */
  function ReplyMessage(reply: Reply): (m: string)
    ensures reply.Accepted? ==> |m| >= |SuccessPrefix| && m[..|SuccessPrefix|] == SuccessPrefix
    ensures reply.Accepted? && reply.message.Some? ==> m[|SuccessPrefix|..] == reply.message.value
    ensures reply.Accepted? && reply.message.None? ==> m == SuccessPrefix + "undefined"
    ensures reply.Rejected? && reply.serverError.Some? && reply.serverError.value != "" ==> m == reply.serverError.value
    ensures reply.Rejected? && !(reply.serverError.Some? && reply.serverError.value != "") ==> m == FailureFallback
  {
    match reply
    case Accepted(msg) =>
      var shown := if msg.Some? then msg.value else "undefined";
      assert (SuccessPrefix + shown)[..|SuccessPrefix|] == SuccessPrefix;
      assert (SuccessPrefix + shown)[|SuccessPrefix|..] == shown;
      SuccessPrefix + shown
    case Rejected(e) => if e.Some? && e.value != "" then e.value else FailureFallback
  }

  /** A settled upload always leaves a message to show, and a success
      message can never be mistaken for a failure's fallback. */
  lemma SettledMessageIsShown(reply: Reply)
    ensures ReplyMessage(reply) != ""
    ensures reply.Accepted? ==> ReplyMessage(reply) != FailureFallback
  {
    if reply.Accepted? {
      assert ReplyMessage(reply)[0] == 'S' != FailureFallback[0];
    }
  }

  class Uploader {
    var file: Option<File>
    var status: Status
    var message: string

    /** `file && status !== 'uploading'`: when the upload button is shown. */
    predicate ShowUploadButton()
      reads this
    {
      file.Some? && status != Uploading
    }

    constructor ()
      ensures file == None && status == Idle && message == ""
      ensures !ShowUploadButton()
    {
      file, status, message := None, Idle, "";
    }

    /** `handleFileChange`: the picked file (none when the dialog was
        cancelled) replaces the previous one and the status returns to idle;
        the message stays. */
    method HandleFileChange(chosen: Option<File>)
      modifies this
      ensures file == chosen && status == Idle && message == old(message)
      ensures ShowUploadButton() <==> chosen.Some?
    {
      file := chosen;
      status := Idle;
    }

    /** The synchronous part of `handleUpload`: without a file nothing
        happens; otherwise the status becomes uploading, which hides the
        button, and the file is handed back to be posted. */
    method StartUpload() returns (sent: Option<File>)
      modifies this
      ensures file == old(file) && message == old(message)
      ensures old(file).None? ==> sent.None? && status == old(status)
      ensures old(file).Some? ==> sent == old(file) && status == Uploading && !ShowUploadButton()
    {
      if file.None? {
        return None;
      }
      status := Uploading;
      sent := file;
    }

    /** The rest of `handleUpload` once the request has settled. */
    method Settle(reply: Reply)
      modifies this
      ensures file == old(file)
      ensures status == (if reply.Accepted? then Succeeded else Failed)
      ensures message == ReplyMessage(reply) && message != ""
      ensures ShowUploadButton() <==> file.Some?
    {
      SettledMessageIsShown(reply);
      match reply {
        case Accepted(msg) =>
          status := Succeeded;
          message := SuccessPrefix + (if msg.Some? then msg.value else "undefined");
        case Rejected(e) =>
          status := Failed;
          message := if e.Some? && e.value != "" then e.value else FailureFallback;
      }
    }
  }
}
