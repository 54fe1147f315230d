/**
 * The client-side image upload component: it validates the chosen file,
 * fetches an upload authorisation `{token, expire, signature}` from the
 * application's endpoint, uploads the file to the image store with it, and
 * records the outcome in its state. The network replies (the authorisation
 * fetch and the upload) are parameters of the model.
 */
module ImageUpload {
  import opened Options
  import opened Numerals
  import JsNumber

  const ValidTypes: seq<string> := ["image/jpeg", "image/png", "image/gif", "image/webp"]
  const MaxSize: nat := 5 * 1024 * 1024

  datatype SelectedFile = SelectedFile(name: string, mimeType: string, size: nat)

  datatype Rejection = InvalidType | TooLarge

  /** Local validation of a chosen file: the type is checked first, then the size. */
  function CheckFile(f: SelectedFile): (r: Option<Rejection>)
    ensures r == Some(InvalidType) <==> f.mimeType !in ValidTypes
    ensures r == Some(TooLarge) <==> f.mimeType in ValidTypes && f.size > MaxSize
    ensures r == None <==> f.mimeType in ValidTypes && f.size <= 5_242_880
  {
    if f.mimeType !in ValidTypes then Some(InvalidType)
    else if f.size > MaxSize then Some(TooLarge)
    else None
  }

  /** What a rejected promise carries: an `Error` with its message, or some other value. */
  datatype Thrown = ErrorValue(message: string) | NonError

  /** `error instanceof Error ? error.message : fallback`. */
  function MessageOf(e: Thrown, fallback: string): string {
    match e
    case ErrorValue(m) => m
    case NonError => fallback
  }

  /** The JSON body of a successful authorisation reply, or the failure to read it. */
  datatype AuthBody = Grant(token: string, expire: int, signature: string) | Unreadable(e: Thrown)

  /** The authorisation endpoint's reply: the fetch fails, or a response with a status arrives. */
  datatype AuthReply = FetchRejected(e: Thrown) | Responded(status: nat, text: string, body: AuthBody)

  datatype AuthParams = AuthParams(token: string, expire: int, signature: string)

  const AuthFailurePrefix := "Authentication request failed:"
  const StatusPrefix := AuthFailurePrefix + "Request failed "

  /** `response.ok`: the status is in the 2xx range. */
  predicate IsOk(status: nat) { 200 <= status <= 299 }

  /** The error an unsuccessful status turns into, before the authenticator wraps it. */
  function RequestFailed(status: nat, text: string): string {
    "Request failed " + NatToDecimal(status) + ": " + text
  }

  /** The authenticator: fetch the authorisation and keep its three fields, wrapping every failure. */
  function Authenticate(reply: AuthReply): (r: Result<AuthParams, string>)
    ensures r.Ok? <==> reply.Responded? && IsOk(reply.status) && reply.body.Grant?
    ensures r.Ok? ==> r.value == AuthParams(reply.body.token, reply.body.expire, reply.body.signature)
    ensures r.Err? ==> AuthFailurePrefix <= r.error
    ensures reply.FetchRejected? ==> r == Err(AuthFailurePrefix + MessageOf(reply.e, "Unknown error"))
    ensures reply.Responded? && IsOk(reply.status) && reply.body.Unreadable? ==>
              r == Err(AuthFailurePrefix + MessageOf(reply.body.e, "Unknown error"))
    ensures reply.Responded? && !IsOk(reply.status) ==>
              r == Err(AuthFailurePrefix + RequestFailed(reply.status, reply.text))
  {
    var attempt: Result<AuthParams, Thrown> :=
      match reply
      case FetchRejected(e) => Err(e)
      case Responded(status, text, body) =>
        if !IsOk(status) then Err(ErrorValue(RequestFailed(status, text)))
        else match body
          case Grant(token, expire, signature) => Ok(AuthParams(token, expire, signature))
          case Unreadable(e) => Err(e);
    match attempt
    case Ok(params) => Ok(params)
    case Err(e) => Err(AuthFailurePrefix + MessageOf(e, "Unknown error"))
  }

  /** The number of leading decimal digits of `s`. */
  function LeadingDigits(s: string): (n: nat)
    ensures n <= |s| && IsDigits(s[..n])
    ensures n < |s| ==> !IsDigit(s[n])
  {
    if s == [] || !IsDigit(s[0]) then 0
    else
      var n := 1 + LeadingDigits(s[1..]);
      assert s[..n] == [s[0]] + s[1..][..n - 1];
      n
  }

  /** The status an operator reads from an authentication failure message, if it names one. */
  function StatusInMessage(msg: string): Option<nat> {
    if StatusPrefix <= msg then
      var rest := msg[|StatusPrefix|..];
      var n := LeadingDigits(rest);
      if n == 0 then None else Some(DigitsValue(rest[..n]))
    else None
  }

  /** The leading digits of digits followed by a non-digit are exactly those digits. */
  lemma {:induction false} LeadingDigitsOfNumeral(digits: string, tail: string)
    requires IsDigits(digits)
    requires tail != [] && !IsDigit(tail[0])
    ensures LeadingDigits(digits + tail) == |digits|
  {
    if digits != [] {
      assert (digits + tail)[1..] == digits[1..] + tail;
      LeadingDigitsOfNumeral(digits[1..], tail);
    } else {
      assert digits + tail == tail;
    }
  }

  /** What follows the status prefix decides the status read from a message. */
  lemma StatusAfterPrefix(rest: string)
    ensures var n := LeadingDigits(rest);
      StatusInMessage(StatusPrefix + rest) == if n == 0 then None else Some(DigitsValue(rest[..n]))
  {
    var m := StatusPrefix + rest;
    assert m[..|StatusPrefix|] == StatusPrefix;
    assert m[|StatusPrefix|..] == rest;
  }

  /** A failed-status message is the status prefix, the rendered status, ": " and the text. */
  lemma FailureMessageShape(status: nat, text: string)
    ensures AuthFailurePrefix + RequestFailed(status, text) == StatusPrefix + (NatToDecimal(status) + (": " + text))
  {
  }

  /** A failed-status message names the status and ends with the response text. */
  lemma FailureMessageNamesStatus(status: nat, text: string)
    ensures var m := AuthFailurePrefix + RequestFailed(status, text);
      StatusInMessage(m) == Some(status) && m[|m| - |text|..] == text
  {
    var digits := NatToDecimal(status);
    var rest := digits + (": " + text);
    FailureMessageShape(status, text);
    StatusAfterPrefix(rest);
    LeadingDigitsOfNumeral(digits, ": " + text);
    assert rest[..|digits|] == digits;
    DecimalRoundTrip(status);
  }

  /** `Math.round(loaded * 100 / total)` for a positive total: the nearest integer, halves rounded up. */
  function RoundedPercent(loaded: nat, total: nat): (p: int)
    requires total > 0
    ensures 2 * total * p - total <= 200 * loaded < 2 * total * p + total
  {
    var p := (200 * loaded + total) / (2 * total);
    assert 2 * total * p <= 200 * loaded + total < 2 * total * p + 2 * total by {
      var q := 200 * loaded + total;
      assert q == (2 * total) * (q / (2 * total)) + q % (2 * total);
    }
    p
  }

  /** Multiplying by a natural number keeps the order. */
  lemma ScaleKeepsOrder(t: nat, q: int, p: int)
    requires q <= p
    ensures t * q <= t * p
  {
    assert t * p - t * q == t * (p - q);
  }

  /** A completed share of a transfer is reported between 0 and 100. */
  lemma PercentWithinRange(loaded: nat, total: nat)
    requires 0 < total && loaded <= total
    ensures 0 <= RoundedPercent(loaded, total) <= 100
  {
    var p := RoundedPercent(loaded, total);
    if p < 0 {
      ScaleKeepsOrder(2 * total, p, -1);
    }
    if p > 100 {
      ScaleKeepsOrder(2 * total, 101, p);
    }
  }

  /** More bytes transferred of the same total never report a smaller percentage. */
  lemma PercentMonotone(loaded: nat, loaded': nat, total: nat)
    requires 0 < total && loaded <= loaded'
    ensures RoundedPercent(loaded, total) <= RoundedPercent(loaded', total)
  {
    var p, p' := RoundedPercent(loaded, total), RoundedPercent(loaded', total);
    if p > p' {
      ScaleKeepsOrder(2 * total, p' + 1, p);
    }
  }

  datatype ProgressEvent = ProgressEvent(loaded: nat, total: nat)

  /** The percentage the progress callback computes; a zero total gives NaN or Infinity. */
  function ProgressPercent(e: ProgressEvent): (n: JsNumber.Number)
    ensures e.total > 0 ==> n == JsNumber.Finite(RoundedPercent(e.loaded, e.total) as real)
    ensures e.total == 0 ==> (n.NaN? || n.PosInf?) && (n.NaN? <==> e.loaded == 0)
  {
    if e.total > 0 then JsNumber.Finite(RoundedPercent(e.loaded, e.total) as real)
    else if e.loaded == 0 then JsNumber.NaN
    else JsNumber.PosInf
  }

  datatype UploadResponse = UploadResponse(filePath: string, name: string, fileId: string, url: string)

  datatype UploadRequest = UploadRequest(
    file: SelectedFile,
    fileName: string,
    signature: string,
    token: string,
    expire: int,
    publicKey: string)

  /** The image store's behaviour for one upload: progress events, then a response or a failure. */
  datatype UploadReply = UploadReply(events: seq<ProgressEvent>, result: Result<UploadResponse, Thrown>)

  /** The component's calls to the outside: the authorisation fetch, the upload, the parent's callback. */
  datatype Effect = FetchGrant | StartUpload(request: UploadRequest) | FileChanged(path: string)

  datatype Outcome = NoFile | Rejected(rejection: Rejection) | Succeeded(path: string) | Failed(message: string)

  /** The component state, and the file input element's value when the input is mounted. */
  datatype View = View(
    isUploading: bool,
    uploadProgress: JsNumber.Number,
    file: Option<string>,
    inputMounted: bool,
    inputValue: string)

  function StartedView(v: View): View {
    v.(isUploading := true, uploadProgress := JsNumber.Finite(0.0))
  }

  function ProgressedView(v: View, e: ProgressEvent): View {
    v.(uploadProgress := ProgressPercent(e))
  }

  function ErroredView(v: View): View {
    v.(isUploading := false, uploadProgress := JsNumber.Finite(0.0))
  }

  function SucceededView(v: View, res: UploadResponse): View {
    v.(file := Some(res.filePath), isUploading := false, uploadProgress := JsNumber.Finite(100.0))
  }

  function ClearedInput(v: View): View {
    if v.inputMounted then v.(inputValue := "") else v
  }

  /** The state after the progress callback has seen `events`, in order. */
  function AfterEvents(v: View, events: seq<ProgressEvent>): View {
    if events == [] then v else ProgressedView(AfterEvents(v, events[..|events| - 1]), events[|events| - 1])
  }

  /** The progress shown while uploading is the last event's percentage, between 0 and 100 for sane events. */
  lemma {:induction false} ProgressShownWithinRange(v: View, events: seq<ProgressEvent>)
    requires events != []
    requires forall i :: 0 <= i < |events| ==> 0 < events[i].total && events[i].loaded <= events[i].total
    ensures var shown := AfterEvents(v, events).uploadProgress;
      && shown == ProgressPercent(events[|events| - 1])
      && shown.Finite? && 0.0 <= shown.value <= 100.0
      && AfterEvents(v, events).(uploadProgress := v.uploadProgress) == v
  {
    var last := events[|events| - 1];
    PercentWithinRange(last.loaded, last.total);
    if |events| > 1 {
      ProgressShownWithinRange(v, events[..|events| - 1]);
    }
  }

  datatype Handled = Handled(outcome: Outcome, view: View, effects: seq<Effect>)

  predicate Validated(files: seq<SelectedFile>) {
    files != [] && CheckFile(files[0]).None?
  }

  /** The file-change handler from state `v`, given the two network replies. */
  function HandleSpec(v: View, publicKey: string, files: seq<SelectedFile>, auth: AuthReply, upload: UploadReply)
    : (h: Handled)
    // nothing chosen, or the file is refused: nothing changes and nothing is contacted
    ensures files == [] ==> h == Handled(NoFile, v, [])
    ensures files != [] && CheckFile(files[0]).Some? ==>
              h == Handled(Rejected(CheckFile(files[0]).value), v, [])
    // past validation: the authoriser is contacted first, the input is cleared, the upload is over
    ensures Validated(files) ==>
              && h.effects != [] && h.effects[0] == FetchGrant
              && h.view.inputMounted == v.inputMounted
              && (h.view.inputMounted ==> h.view.inputValue == "")
              && (!h.view.inputMounted ==> h.view.inputValue == v.inputValue)
              && !h.view.isUploading
              && (h.outcome.Succeeded? || h.outcome.Failed?)
    // an upload starts only after the authoriser answered, with exactly its token, expiry and signature
    ensures forall i :: 0 <= i < |h.effects| && h.effects[i].StartUpload? ==>
              && i == 1 && h.effects[0] == FetchGrant
              && var grant := Authenticate(auth);
              && grant.Ok?
              && h.effects[i].request == UploadRequest(files[0], files[0].name, grant.value.signature,
                                                       grant.value.token, grant.value.expire, publicKey)
    // success: the store's path is recorded and reported, progress is 100
    ensures h.outcome.Succeeded? ==>
              && upload.result.Ok? && h.outcome.path == upload.result.value.filePath
              && h.view.file == Some(h.outcome.path)
              && h.view.uploadProgress == JsNumber.Finite(100.0)
              && |h.effects| == 3 && h.effects[0] == FetchGrant && h.effects[1].StartUpload?
              && h.effects[2] == FileChanged(h.outcome.path)
    // failure: progress is reset, the recorded file and the parent are left alone
    ensures h.outcome.Failed? ==>
              && h.view.file == v.file
              && h.view.uploadProgress == JsNumber.Finite(0.0)
              && forall e :: e in h.effects ==> !e.FileChanged?
    ensures h.outcome.Failed? && Authenticate(auth).Err? ==> h.outcome.message == Authenticate(auth).error
    // a refused grant: the failure carries the authoriser's message and no upload starts
    ensures Validated(files) && Authenticate(auth).Err? ==>
              h.outcome == Failed(Authenticate(auth).error) && h.effects == [FetchGrant]
    // a grant: the upload starts, right after the fetch, with exactly the grant's values
    ensures Validated(files) && Authenticate(auth).Ok? ==>
              && |h.effects| >= 2
              && var grant := Authenticate(auth).value;
              && h.effects[1] == StartUpload(UploadRequest(files[0], files[0].name, grant.signature,
                                                           grant.token, grant.expire, publicKey))
    // the upload's own result decides between success and its failure message
    ensures Validated(files) && Authenticate(auth).Ok? && upload.result.Ok? ==>
              h.outcome == Succeeded(upload.result.value.filePath)
    ensures Validated(files) && Authenticate(auth).Ok? && upload.result.Err? ==>
              && h.outcome == Failed(MessageOf(upload.result.error, "Upload failed"))
              && |h.effects| == 2 && h.effects[0] == FetchGrant && h.effects[1].StartUpload?
  {
    if files == [] then Handled(NoFile, v, [])
    else
      var f := files[0];
      match CheckFile(f)
      case Some(rejection) => Handled(Rejected(rejection), v, [])
      case None =>
        var started := StartedView(v);
        match Authenticate(auth)
        case Err(message) => Handled(Failed(message), ClearedInput(ErroredView(started)), [FetchGrant])
        case Ok(grant) =>
          var request := UploadRequest(f, f.name, grant.signature, grant.token, grant.expire, publicKey);
          var progressed := AfterEvents(started, upload.events);
          assert progressed.file == v.file && progressed.inputMounted == v.inputMounted
                 && progressed.inputValue == v.inputValue by {
            ProgressKeepsFields(started, upload.events);
          }
          match upload.result
          case Ok(res) =>
            Handled(Succeeded(res.filePath), ClearedInput(SucceededView(progressed, res)),
                    [FetchGrant, StartUpload(request), FileChanged(res.filePath)])
          case Err(e) =>
            Handled(Failed(MessageOf(e, "Upload failed")), ClearedInput(ErroredView(progressed)),
                    [FetchGrant, StartUpload(request)])
  }

  /** Progress events change the shown percentage and nothing else. */
  lemma {:induction false} ProgressKeepsFields(v: View, events: seq<ProgressEvent>)
    ensures AfterEvents(v, events).(uploadProgress := v.uploadProgress) == v
  {
    if events != [] {
      ProgressKeepsFields(v, events[..|events| - 1]);
    }
  }

  /**
   * The outcome and the calls made do not depend on the state left by an
   * earlier attempt: choosing the same file again with the same replies
   * gives the same result.
   */
  lemma OutcomeIndependentOfPriorState(v: View, v': View, publicKey: string, files: seq<SelectedFile>,
                                       auth: AuthReply, upload: UploadReply)
    requires Validated(files)
    ensures var h, h' := HandleSpec(v, publicKey, files, auth, upload), HandleSpec(v', publicKey, files, auth, upload);
      && h.outcome == h'.outcome && h.effects == h'.effects
      && h.view.isUploading == h'.view.isUploading
      && (h.outcome.Succeeded? ==> h.view.file == h'.view.file && h.view.uploadProgress == h'.view.uploadProgress)
  {
  }

  /** The upload component: its React state, and the file input it clears. */
  class Uploader {
    const publicKey: string
    var isUploading: bool
    var uploadProgress: JsNumber.Number
    var file: Option<string>
    var inputMounted: bool
    var inputValue: string

    function Current(): View
      reads this
    {
      View(isUploading, uploadProgress, file, inputMounted, inputValue)
    }

    /** A freshly mounted component: no file, not uploading, progress 0. */
    constructor (publicKey: string)
      ensures this.publicKey == publicKey
      ensures Current() == View(false, JsNumber.Finite(0.0), None, true, "")
    {
      this.publicKey := publicKey;
      isUploading := false;
      uploadProgress := JsNumber.Finite(0.0);
      file := None;
      inputMounted := true;
      inputValue := "";
    }

    /** The error handler: the upload is over and its progress is reset. */
    method OnError(message: string)
      modifies this
      ensures Current() == ErroredView(old(Current()))
    {
      isUploading := false;
      uploadProgress := JsNumber.Finite(0.0);
    }

    /** The success handler: the stored path is recorded and handed to the parent, progress is 100. */
    method OnSuccess(res: UploadResponse) returns (notified: string)
      modifies this
      ensures Current() == SucceededView(old(Current()), res)
      ensures notified == res.filePath
    {
      file := Some(res.filePath);
      notified := res.filePath;
      isUploading := false;
      uploadProgress := JsNumber.Finite(100.0);
    }

    /** The progress callback: the shown percentage is overwritten. */
    method OnProgress(e: ProgressEvent)
      modifies this
      ensures Current() == ProgressedView(old(Current()), e)
    {
      uploadProgress := ProgressPercent(e);
    }

    /** The file-change handler. */
    method HandleFileChange(files: seq<SelectedFile>, auth: AuthReply, upload: UploadReply)
      returns (outcome: Outcome, effects: seq<Effect>)
      modifies this
      ensures Handled(outcome, Current(), effects) == HandleSpec(old(Current()), publicKey, files, auth, upload)
    {
      if files == [] {
        return NoFile, [];
      }
      var selected := files[0];
      var rejection := CheckFile(selected);
      if rejection.Some? {
        return Rejected(rejection.value), [];
      }
      isUploading := true;
      uploadProgress := JsNumber.Finite(0.0);
      ghost var started := Current();
      effects := [FetchGrant];
      var grant := Authenticate(auth);
      if grant.Err? {
        OnError(grant.error);
        outcome := Failed(grant.error);
      } else {
        var request := UploadRequest(selected, selected.name, grant.value.signature, grant.value.token,
                                     grant.value.expire, publicKey);
        effects := effects + [StartUpload(request)];
        var i := 0;
        while i < |upload.events|
          invariant 0 <= i <= |upload.events|
          invariant Current() == AfterEvents(started, upload.events[..i])
        {
          OnProgress(upload.events[i]);
          assert upload.events[..i + 1][..i] == upload.events[..i];
          i := i + 1;
        }
        assert upload.events[..i] == upload.events;
        match upload.result
        case Ok(res) =>
          var path := OnSuccess(res);
          effects := effects + [FileChanged(path)];
          outcome := Succeeded(res.filePath);
        case Err(e) =>
          var message := MessageOf(e, "Upload failed");
          OnError(message);
          outcome := Failed(message);
      }
      if inputMounted {
        inputValue := "";
      }
    }
  }
}
