/** The per-message and per-attachment filtering of `fetch_latest_bills`,
    abstracted over the unseen messages of the mailbox: which messages are
    invoice mails, which attachments are valid PDFs, and the bills and folder
    moves the scan produces. */
module Scanner {
  import opened Wrappers
  import opened Text

  newtype byte = b: int | 0 <= b < 256

  type Bytes = seq<byte>

  /** `b'%PDF'`. */
  const PdfMagic: Bytes := [0x25, 0x50, 0x44, 0x46]

  /** The only content type an attachment may have. */
  const PdfContentType: string := "application/pdf"

  /** The phrase an invoice mail's subject contains. */
  const InvoiceMarker: string := "Електрохолд Продажби - Фактура"

  /** `bytes.startswith(b'%PDF')`. */
  predicate HasPdfMagic(b: Bytes) {
    |b| >= |PdfMagic| && b[..|PdfMagic|] == PdfMagic
  }

  /** The payload as the mail parser hands it over: a string (base64 text),
      raw bytes, or nothing at all. */
  datatype Payload = TextPayload(text: string) | BytesPayload(bytes: Bytes) | NoPayload

  /** `filename` and `mail_content_type` are dictionary lookups that may miss. */
  datatype Attachment = Attachment(filename: Option<string>, contentType: Option<string>, payload: Payload)

  /** The Subject header: its MIME-decoded text, or a value of another type.
      A message without the header has the default `""`, i.e. `Header("")`. */
  datatype Subject = Header(decoded: string) | NotText

  datatype Message = Message(uid: nat, subject: Subject, attachments: seq<Attachment>)

  /** The `(filename, bytes)` pair appended to the result. */
  datatype Bill = Bill(filename: Option<string>, pdf: Bytes)

  /** `base64.b64decode` on a string payload; `None` when it raises. */
  type Decoder = string -> Option<Bytes>

  /** The subject check in `fetch_latest_bills`: a text subject holding the marker. */
  predicate IsInvoiceMail(m: Message) {
    m.subject.Header? && Contains(m.subject.decoded, InvoiceMarker)
  }

  /** The payload `p` stands for the bytes `b`: a string payload that decodes
      to `b`, or `b` itself. */
  predicate Carries(p: Payload, decode: Decoder, b: Bytes) {
    (p.TextPayload? && decode(p.text) == Some(b)) || p == BytesPayload(b)
  }

  /** An attachment the scan turns into a bill. */
  ghost predicate IsValidPdf(a: Attachment, decode: Decoder) {
    a.contentType == Some(PdfContentType) &&
    exists b :: Carries(a.payload, decode, b) && HasPdfMagic(b)
  }

  /** What happens to one attachment: skipped, accepted with its bytes, or
      the scan aborts (`None.startswith` raises and the broad handler ends
      the whole scan). */
  datatype Outcome = Skip | Accept(pdf: Bytes) | Abort

  function Examine(a: Attachment, decode: Decoder): (o: Outcome)
    ensures o.Accept? <==> IsValidPdf(a, decode)
    ensures o.Accept? ==> Carries(a.payload, decode, o.pdf) && HasPdfMagic(o.pdf)
    ensures o.Abort? <==> a.contentType == Some(PdfContentType) && a.payload.NoPayload?
  {
    if a.contentType != Some(PdfContentType) then Skip
    else
      match a.payload
      case NoPayload => Abort
      case TextPayload(t) =>
        var d := decode(t);
        if d.Some? && HasPdfMagic(d.value) then Accept(d.value) else Skip
      case BytesPayload(b) =>
        if HasPdfMagic(b) then Accept(b) else Skip
  }

  // ---------------------------------------------------------------------------
  // The scan as a left fold

  /** The collected bills, the log of `client.move([uid], ...)` calls, and
      whether the broad exception handler ended the scan. */
  datatype Scan = Scan(bills: seq<Bill>, moves: seq<nat>, aborted: bool)

  const Start: Scan := Scan([], [], false)

  /** One pass of the attachment loop in `fetch_latest_bills`, for message
      `uid`: the move comes first, then the bill is appended. */
  function StepAttachment(st: Scan, uid: nat, a: Attachment, decode: Decoder): Scan {
    match Examine(a, decode)
    case Skip => st
    case Accept(pdf) => Scan(st.bills + [Bill(a.filename, pdf)], st.moves + [uid], false)
    case Abort => st.(aborted := true)
  }

  /** The inner loop over the attachments of message `uid`. */
  function ScanAttachments(st: Scan, uid: nat, atts: seq<Attachment>, decode: Decoder): (r: Scan)
    requires !st.aborted
    ensures |r.moves| - |r.bills| == |st.moves| - |st.bills|
    ensures |st.bills| <= |r.bills| && r.bills[..|st.bills|] == st.bills
    ensures |st.moves| <= |r.moves| && r.moves[..|st.moves|] == st.moves
    ensures forall k :: |st.bills| <= k < |r.bills| ==> HasPdfMagic(r.bills[k].pdf)
    decreases |atts|
  {
    if |atts| == 0 then st
    else
      var p := ScanAttachments(st, uid, atts[..|atts| - 1], decode);
      if p.aborted then p else StepAttachment(p, uid, atts[|atts| - 1], decode)
  }

  /** One iteration of the outer loop: a message that is no invoice mail is
      skipped whole. */
  function StepMessage(st: Scan, m: Message, decode: Decoder): Scan
    requires !st.aborted
  {
    if IsInvoiceMail(m) then ScanAttachments(st, m.uid, m.attachments, decode) else st
  }

  /** The outer loop over the unseen messages, in mailbox order. */
  function ScanMessages(msgs: seq<Message>, decode: Decoder): (r: Scan)
    ensures |r.moves| == |r.bills|
    ensures forall k :: 0 <= k < |r.bills| ==> HasPdfMagic(r.bills[k].pdf)
    decreases |msgs|
  {
    if |msgs| == 0 then Start
    else
      var p := ScanMessages(msgs[..|msgs| - 1], decode);
      if p.aborted then p else StepMessage(p, msgs[|msgs| - 1], decode)
  }

  /** The attachment loop of `fetch_latest_bills` over message `uid`:
      each valid PDF moves the message and is appended; a PDF-typed
      attachment without payload ends the scan. */
  method ScanAttachmentsLoop(st: Scan, uid: nat, atts: seq<Attachment>, decode: Decoder) returns (r: Scan)
    requires !st.aborted
    ensures r == ScanAttachments(st, uid, atts, decode)
  {
    var bills, moves, failed := st.bills, st.moves, false;
    var j := 0;
    while j < |atts| && !failed
      invariant 0 <= j <= |atts|
      invariant Scan(bills, moves, failed) == ScanAttachments(st, uid, atts[..j], decode)
    {
      var a := atts[j];
      assert atts[..j + 1][..j] == atts[..j];
      if a.contentType == Some(PdfContentType) {
        match a.payload {
          case NoPayload =>
            failed := true;
          case TextPayload(t) =>
            var d := decode(t);
            if d.Some? && HasPdfMagic(d.value) {
              moves := moves + [uid];
              bills := bills + [Bill(a.filename, d.value)];
            }
          case BytesPayload(b) =>
            if HasPdfMagic(b) {
              moves := moves + [uid];
              bills := bills + [Bill(a.filename, b)];
            }
        }
      }
      j := j + 1;
    }
    AttachmentsAbortSticks(st, uid, atts, j, decode);
    assert atts[..|atts|] == atts;
    r := Scan(bills, moves, failed);
  }

  /** `fetch_latest_bills` without the IMAP session: the bills in order and
      the uid of every move issued. */
  method FetchLatestBills(msgs: seq<Message>, decode: Decoder) returns (bills: seq<Bill>, moves: seq<nat>)
    ensures Scan(bills, moves, ScanMessages(msgs, decode).aborted) == ScanMessages(msgs, decode)
    ensures |moves| == |bills| && forall k :: 0 <= k < |bills| ==> HasPdfMagic(bills[k].pdf)
  {
    var st := Start;
    var i := 0;
    while i < |msgs| && !st.aborted
      invariant 0 <= i <= |msgs|
      invariant st == ScanMessages(msgs[..i], decode)
    {
      var m := msgs[i];
      assert msgs[..i + 1][..i] == msgs[..i];
      if IsInvoiceMail(m) {
        st := ScanAttachmentsLoop(st, m.uid, m.attachments, decode);
      }
      i := i + 1;
    }
    MessagesAbortSticks(msgs, i, decode);
    assert msgs[..|msgs|] == msgs;
    bills, moves := st.bills, st.moves;
  }

  /** Once the handler has fired, later attachments change nothing. */
  lemma {:induction false} AttachmentsAbortSticks(st: Scan, uid: nat, atts: seq<Attachment>, j: nat, decode: Decoder)
    requires !st.aborted && j <= |atts|
    requires j < |atts| ==> ScanAttachments(st, uid, atts[..j], decode).aborted
    ensures ScanAttachments(st, uid, atts, decode) == ScanAttachments(st, uid, atts[..j], decode)
    decreases |atts| - j
  {
    if j < |atts| {
      assert atts[..|atts| - 1][..j] == atts[..j];
      AttachmentsAbortSticks(st, uid, atts[..|atts| - 1], j, decode);
    } else {
      assert atts[..j] == atts;
    }
  }

  /** Once the handler has fired, later messages change nothing. */
  lemma {:induction false} MessagesAbortSticks(msgs: seq<Message>, i: nat, decode: Decoder)
    requires i <= |msgs|
    requires i < |msgs| ==> ScanMessages(msgs[..i], decode).aborted
    ensures ScanMessages(msgs, decode) == ScanMessages(msgs[..i], decode)
    decreases |msgs| - i
  {
    if i < |msgs| {
      assert msgs[..|msgs| - 1][..i] == msgs[..i];
      MessagesAbortSticks(msgs[..|msgs| - 1], i, decode);
    } else {
      assert msgs[..i] == msgs;
    }
  }

  // ---------------------------------------------------------------------------
  // Reference: the bills the scan is meant to deliver

  /** A bill together with the uid of the message it came from. */
  datatype Delivery = Delivery(uid: nat, bill: Bill)

  /** The valid PDFs among `atts`, in attachment order. */
  function ValidPdfs(uid: nat, atts: seq<Attachment>, decode: Decoder): (ds: seq<Delivery>)
    ensures |ds| <= |atts|
    ensures forall k :: 0 <= k < |ds| ==> ds[k].uid == uid
    decreases |atts|
  {
    if |atts| == 0 then []
    else
      var a := atts[|atts| - 1];
      var o := Examine(a, decode);
      ValidPdfs(uid, atts[..|atts| - 1], decode) + (if o.Accept? then [Delivery(uid, Bill(a.filename, o.pdf))] else [])
  }

  /** What one message delivers: nothing unless it is an invoice mail. */
  function MessageDeliveries(m: Message, decode: Decoder): seq<Delivery> {
    if IsInvoiceMail(m) then ValidPdfs(m.uid, m.attachments, decode) else []
  }

  /** Message order first, then attachment order. */
  function Deliveries(msgs: seq<Message>, decode: Decoder): seq<Delivery>
    decreases |msgs|
  {
    if |msgs| == 0 then []
    else Deliveries(msgs[..|msgs| - 1], decode) + MessageDeliveries(msgs[|msgs| - 1], decode)
  }

  function BillsOf(ds: seq<Delivery>): seq<Bill> {
    seq(|ds|, k requires 0 <= k < |ds| => ds[k].bill)
  }

  function UidsOf(ds: seq<Delivery>): seq<nat> {
    seq(|ds|, k requires 0 <= k < |ds| => ds[k].uid)
  }

  /** A PDF-typed attachment of an invoice mail has no payload at all. */
  ghost predicate MessageAborts(m: Message, decode: Decoder) {
    IsInvoiceMail(m) && exists j :: 0 <= j < |m.attachments| && Examine(m.attachments[j], decode).Abort?
  }

  ghost predicate Aborts(msgs: seq<Message>, decode: Decoder) {
    exists i :: 0 <= i < |msgs| && MessageAborts(msgs[i], decode)
  }

  lemma BillsOfAppend(a: seq<Delivery>, b: seq<Delivery>)
    ensures BillsOf(a + b) == BillsOf(a) + BillsOf(b)
    ensures UidsOf(a + b) == UidsOf(a) + UidsOf(b)
  {
    assert forall k :: 0 <= k < |a + b| ==> BillsOf(a + b)[k] == (BillsOf(a) + BillsOf(b))[k];
    assert forall k :: 0 <= k < |a + b| ==> UidsOf(a + b)[k] == (UidsOf(a) + UidsOf(b))[k];
  }

  /** The handler fires in the inner loop exactly when some PDF-typed
      attachment has no payload. */
  lemma {:induction false} AttachmentsAbortWhen(st: Scan, uid: nat, atts: seq<Attachment>, decode: Decoder)
    requires !st.aborted
    ensures ScanAttachments(st, uid, atts, decode).aborted <==>
      exists j :: 0 <= j < |atts| && Examine(atts[j], decode).Abort?
    decreases |atts|
  {
    if |atts| > 0 {
      var init := atts[..|atts| - 1];
      AttachmentsAbortWhen(st, uid, init, decode);
      assert forall j :: 0 <= j < |init| ==> init[j] == atts[j];
      if ScanAttachments(st, uid, init, decode).aborted {
      } else {
        assert Examine(atts[|atts| - 1], decode).Abort? ==> exists j :: 0 <= j < |atts| && Examine(atts[j], decode).Abort?;
      }
    }
  }

  /** `r` holds the bills and moves of `st` followed by a prefix of `ds`,
      all of `ds` unless it is aborted. */
  ghost predicate FollowsFrom(st: Scan, r: Scan, ds: seq<Delivery>) {
    var n := |r.bills| - |st.bills|;
    && 0 <= n <= |ds|
    && r.bills == st.bills + BillsOf(ds[..n])
    && r.moves == st.moves + UidsOf(ds[..n])
    && (!r.aborted ==> n == |ds|)
  }

  /** One attachment keeps `FollowsFrom`. */
  lemma FollowStep(st: Scan, p: Scan, dp: seq<Delivery>, uid: nat, a: Attachment, decode: Decoder)
    requires FollowsFrom(st, p, dp)
    ensures var o := Examine(a, decode);
      FollowsFrom(st, if p.aborted then p else StepAttachment(p, uid, a, decode),
                  dp + (if o.Accept? then [Delivery(uid, Bill(a.filename, o.pdf))] else []))
  {
    var o := Examine(a, decode);
    var ds := dp + (if o.Accept? then [Delivery(uid, Bill(a.filename, o.pdf))] else []);
    var np := |p.bills| - |st.bills|;
    assert ds[..np] == dp[..np];
    if !p.aborted {
      assert dp[..np] == dp;
      if o.Accept? {
        var d := Delivery(uid, Bill(a.filename, o.pdf));
        assert ds[..np + 1] == dp + [d];
        BillsOfAppend(dp, [d]);
      }
    }
  }

  /** The inner loop delivers a prefix of the valid PDFs, all of them unless
      the handler fired. */
  lemma {:induction false} AttachmentsFollowValidPdfs(st: Scan, uid: nat, atts: seq<Attachment>, decode: Decoder)
    requires !st.aborted
    ensures FollowsFrom(st, ScanAttachments(st, uid, atts, decode), ValidPdfs(uid, atts, decode))
    decreases |atts|
  {
    if |atts| == 0 {
      assert BillsOf([]) == [] && UidsOf([]) == [];
    } else {
      var init := atts[..|atts| - 1];
      AttachmentsFollowValidPdfs(st, uid, init, decode);
      FollowStep(st, ScanAttachments(st, uid, init, decode), ValidPdfs(uid, init, decode), uid, atts[|atts| - 1], decode);
    }
  }

  lemma TakeAppend(a: seq<Delivery>, b: seq<Delivery>, n: nat)
    requires n <= |b|
    ensures (a + b)[..|a| + n] == a + b[..n]
  {
  }

  /** A completed prefix followed by a partial one. */
  lemma FollowsCompose(st: Scan, p: Scan, dp: seq<Delivery>, r: Scan, ds: seq<Delivery>)
    requires FollowsFrom(st, p, dp) && !p.aborted && FollowsFrom(p, r, ds)
    ensures FollowsFrom(st, r, dp + ds)
  {
    var n := |r.bills| - |p.bills|;
    assert dp[..|dp|] == dp;
    assert p.bills == st.bills + BillsOf(dp) && p.moves == st.moves + UidsOf(dp);
    TakeAppend(dp, ds, n);
    BillsOfAppend(dp, ds[..n]);
    assert r.bills == st.bills + BillsOf(dp + ds[..n]);
    assert r.moves == st.moves + UidsOf(dp + ds[..n]);
  }

  /** One message keeps `FollowsFrom`. */
  lemma MessageStep(p: Scan, dp: seq<Delivery>, m: Message, decode: Decoder)
    requires FollowsFrom(Start, p, dp)
    ensures FollowsFrom(Start, if p.aborted then p else StepMessage(p, m, decode), dp + MessageDeliveries(m, decode))
  {
    var ds := dp + MessageDeliveries(m, decode);
    var np := |p.bills|;
    assert ds[..np] == dp[..np];
    if !p.aborted {
      if IsInvoiceMail(m) {
        AttachmentsFollowValidPdfs(p, m.uid, m.attachments, decode);
        FollowsCompose(Start, p, dp, StepMessage(p, m, decode), MessageDeliveries(m, decode));
      } else {
        assert ds == dp;
      }
    }
  }

  /** The whole scan delivers a prefix of `Deliveries`: the bills in message
      order and then attachment order, each with one move of its message's
      uid; all of them unless the handler fired. */
  lemma {:induction false} ScanFollowsDeliveries(msgs: seq<Message>, decode: Decoder)
    ensures FollowsFrom(Start, ScanMessages(msgs, decode), Deliveries(msgs, decode))
    decreases |msgs|
  {
    if |msgs| == 0 {
      assert BillsOf([]) == [] && UidsOf([]) == [];
    } else {
      var init := msgs[..|msgs| - 1];
      ScanFollowsDeliveries(init, decode);
      MessageStep(ScanMessages(init, decode), Deliveries(init, decode), msgs[|msgs| - 1], decode);
    }
  }

  /** The handler fires exactly when some invoice mail has a PDF-typed
      attachment without payload. */
  lemma {:induction false} ScanAbortsWhen(msgs: seq<Message>, decode: Decoder)
    ensures ScanMessages(msgs, decode).aborted <==> Aborts(msgs, decode)
    decreases |msgs|
  {
    if |msgs| > 0 {
      var init := msgs[..|msgs| - 1];
      var m := msgs[|msgs| - 1];
      ScanAbortsWhen(init, decode);
      assert forall i :: 0 <= i < |init| ==> init[i] == msgs[i];
      var p := ScanMessages(init, decode);
      if !p.aborted && IsInvoiceMail(m) {
        AttachmentsAbortWhen(p, m.uid, m.attachments, decode);
      }
      if Aborts(msgs, decode) && !Aborts(init, decode) {
        var i :| 0 <= i < |msgs| && MessageAborts(msgs[i], decode);
        assert i == |msgs| - 1;
      }
      if !p.aborted && MessageAborts(m, decode) {
        assert MessageAborts(msgs[|msgs| - 1], decode);
      }
    }
  }

  /** Without the handler firing, the output is exactly the reference. */
  lemma ScanDeliversAll(msgs: seq<Message>, decode: Decoder)
    requires !Aborts(msgs, decode)
    ensures ScanMessages(msgs, decode).bills == BillsOf(Deliveries(msgs, decode))
    ensures ScanMessages(msgs, decode).moves == UidsOf(Deliveries(msgs, decode))
  {
    ScanFollowsDeliveries(msgs, decode);
    ScanAbortsWhen(msgs, decode);
    var ds := Deliveries(msgs, decode);
    assert ds[..|ds|] == ds;
  }

  // ---------------------------------------------------------------------------
  // Counting moves

  /** The indices of the valid PDFs among `atts`. */
  ghost function ValidIndices(atts: seq<Attachment>, decode: Decoder): set<nat> {
    set j: nat | j < |atts| && IsValidPdf(atts[j], decode)
  }

  /** One more attachment adds its index when it is valid. */
  lemma ValidIndicesStep(atts: seq<Attachment>, decode: Decoder)
    requires |atts| > 0
    ensures var last := |atts| - 1;
      ValidIndices(atts, decode) ==
        ValidIndices(atts[..last], decode) + (if IsValidPdf(atts[last], decode) then {last} else {})
  {
    var init := atts[..|atts| - 1];
    assert forall j :: 0 <= j < |init| ==> init[j] == atts[j];
  }

  /** Every valid attachment, and nothing else, gives one delivery. */
  lemma {:induction false} ValidPdfsCount(uid: nat, atts: seq<Attachment>, decode: Decoder)
    ensures |ValidPdfs(uid, atts, decode)| == |ValidIndices(atts, decode)|
    decreases |atts|
  {
    if |atts| == 0 {
      assert ValidIndices(atts, decode) == {};
    } else {
      var init := atts[..|atts| - 1];
      var last := |atts| - 1;
      ValidPdfsCount(uid, init, decode);
      ValidIndicesStep(atts, decode);
      assert last !in ValidIndices(init, decode);
    }
  }

  /** How many deliveries name `u`, message by message. */
  ghost function MovesFor(msgs: seq<Message>, u: nat, decode: Decoder): nat
    decreases |msgs|
  {
    if |msgs| == 0 then 0
    else
      var m := msgs[|msgs| - 1];
      MovesFor(msgs[..|msgs| - 1], u, decode) + (if m.uid == u then |MessageDeliveries(m, decode)| else 0)
  }

  lemma {:induction false} UidsOfAllSame(ds: seq<Delivery>, uid: nat, u: nat)
    requires forall k :: 0 <= k < |ds| ==> ds[k].uid == uid
    ensures multiset(UidsOf(ds))[u] == if u == uid then |ds| else 0
    decreases |ds|
  {
    if |ds| > 0 {
      var init := ds[..|ds| - 1];
      UidsOfAllSame(init, uid, u);
      BillsOfAppend(init, [ds[|ds| - 1]]);
      assert init + [ds[|ds| - 1]] == ds;
    }
  }

  lemma {:induction false} DeliveriesCount(msgs: seq<Message>, u: nat, decode: Decoder)
    ensures multiset(UidsOf(Deliveries(msgs, decode)))[u] == MovesFor(msgs, u, decode)
    decreases |msgs|
  {
    if |msgs| > 0 {
      var init := msgs[..|msgs| - 1];
      var m := msgs[|msgs| - 1];
      DeliveriesCount(init, u, decode);
      BillsOfAppend(Deliveries(init, decode), MessageDeliveries(m, decode));
      UidsOfAllSame(MessageDeliveries(m, decode), m.uid, u);
    }
  }

  /** With distinct uids, only the one message with uid `msgs[i].uid` counts. */
  lemma {:induction false} MovesForDistinct(msgs: seq<Message>, i: nat, decode: Decoder)
    requires i < |msgs|
    requires forall a, b :: 0 <= a < b < |msgs| ==> msgs[a].uid != msgs[b].uid
    ensures MovesFor(msgs, msgs[i].uid, decode) == |MessageDeliveries(msgs[i], decode)|
    decreases |msgs|
  {
    var init := msgs[..|msgs| - 1];
    assert forall k :: 0 <= k < |init| ==> init[k] == msgs[k];
    if i < |msgs| - 1 {
      MovesForDistinct(init, i, decode);
    } else {
      MovesForAbsent(init, msgs[i].uid, decode);
    }
  }

  lemma {:induction false} MovesForAbsent(msgs: seq<Message>, u: nat, decode: Decoder)
    requires forall k :: 0 <= k < |msgs| ==> msgs[k].uid != u
    ensures MovesFor(msgs, u, decode) == 0
    decreases |msgs|
  {
    if |msgs| > 0 {
      var init := msgs[..|msgs| - 1];
      assert forall k :: 0 <= k < |init| ==> init[k] == msgs[k];
      MovesForAbsent(init, u, decode);
    }
  }

  /** `client.move` is issued once per valid attachment, not once per message:
      with distinct uids and no handler firing, message `i` is moved as many
      times as it has valid PDFs if it is an invoice mail, and never otherwise. */
  lemma MoveCount(msgs: seq<Message>, i: nat, decode: Decoder)
    requires i < |msgs| && !Aborts(msgs, decode)
    requires forall a, b :: 0 <= a < b < |msgs| ==> msgs[a].uid != msgs[b].uid
    ensures multiset(ScanMessages(msgs, decode).moves)[msgs[i].uid] ==
      if IsInvoiceMail(msgs[i]) then |ValidIndices(msgs[i].attachments, decode)| else 0
  {
    ScanDeliversAll(msgs, decode);
    DeliveriesCount(msgs, msgs[i].uid, decode);
    MovesForDistinct(msgs, i, decode);
    ValidPdfsCount(msgs[i].uid, msgs[i].attachments, decode);
  }

  lemma {:induction false} MovesForWitness(msgs: seq<Message>, u: nat, decode: Decoder)
    requires MovesFor(msgs, u, decode) > 0
    ensures exists i :: 0 <= i < |msgs| && msgs[i].uid == u && |MessageDeliveries(msgs[i], decode)| > 0
    decreases |msgs|
  {
    var init := msgs[..|msgs| - 1];
    var m := msgs[|msgs| - 1];
    if m.uid == u && |MessageDeliveries(m, decode)| > 0 {
      assert msgs[|msgs| - 1] == m;
    } else {
      MovesForWitness(init, u, decode);
      var i :| 0 <= i < |init| && init[i].uid == u && |MessageDeliveries(init[i], decode)| > 0;
      assert msgs[i] == init[i];
    }
  }

  /** Some attachment of `m` is a valid PDF. */
  ghost predicate HasValidPdf(m: Message, decode: Decoder) {
    exists j :: 0 <= j < |m.attachments| && IsValidPdf(m.attachments[j], decode)
  }

  /** A uid among the first `n` deliveries is counted among all of them. */
  lemma UidInPrefix(ds: seq<Delivery>, n: nat, u: nat)
    requires n <= |ds| && u in UidsOf(ds[..n])
    ensures multiset(UidsOf(ds))[u] > 0
  {
    var k :| 0 <= k < n && UidsOf(ds[..n])[k] == u;
    assert UidsOf(ds)[k] == u;
    assert u in multiset(UidsOf(ds));
  }

  /** The moves issued are those of the first deliveries. */
  lemma ScanMovesPrefix(msgs: seq<Message>, decode: Decoder)
    ensures var n := |ScanMessages(msgs, decode).bills|;
      n <= |Deliveries(msgs, decode)| && ScanMessages(msgs, decode).moves == UidsOf(Deliveries(msgs, decode)[..n])
  {
    ScanFollowsDeliveries(msgs, decode);
    FollowsFromStart(ScanMessages(msgs, decode), Deliveries(msgs, decode));
  }

  lemma FollowsFromStart(r: Scan, ds: seq<Delivery>)
    requires FollowsFrom(Start, r, ds)
    ensures |r.bills| <= |ds| && r.moves == UidsOf(ds[..|r.bills|])
  {
    assert Start.moves + UidsOf(ds[..|r.bills|]) == UidsOf(ds[..|r.bills|]);
  }

  lemma MovedIsDelivered(msgs: seq<Message>, u: nat, decode: Decoder)
    requires u in ScanMessages(msgs, decode).moves
    ensures MovesFor(msgs, u, decode) > 0
  {
    ScanMovesPrefix(msgs, decode);
    UidInPrefix(Deliveries(msgs, decode), |ScanMessages(msgs, decode).bills|, u);
    DeliveriesCount(msgs, u, decode);
  }

  lemma DeliveringMessage(m: Message, decode: Decoder)
    requires |MessageDeliveries(m, decode)| > 0
    ensures IsInvoiceMail(m) && HasValidPdf(m, decode)
  {
    ValidPdfsCount(m.uid, m.attachments, decode);
    var j :| j in ValidIndices(m.attachments, decode);
  }

  /** Some invoice mail with uid `u` has a valid PDF. */
  ghost predicate MayBeMoved(msgs: seq<Message>, u: nat, decode: Decoder) {
    exists i :: 0 <= i < |msgs| && msgs[i].uid == u && IsInvoiceMail(msgs[i]) && HasValidPdf(msgs[i], decode)
  }

  lemma DeliveredHasOrigin(msgs: seq<Message>, u: nat, decode: Decoder)
    requires MovesFor(msgs, u, decode) > 0
    ensures MayBeMoved(msgs, u, decode)
  {
    MovesForWitness(msgs, u, decode);
    var i :| 0 <= i < |msgs| && msgs[i].uid == u && |MessageDeliveries(msgs[i], decode)| > 0;
    DeliveringMessage(msgs[i], decode);
  }

  /** A moved uid belongs to an invoice mail with a valid PDF: a message
      whose subject is not text, lacks the marker, or that has no valid PDF
      is never moved. */
  lemma MovedOnlyWithValidPdf(msgs: seq<Message>, u: nat, decode: Decoder)
    requires u in ScanMessages(msgs, decode).moves
    ensures MayBeMoved(msgs, u, decode)
  {
    MovedIsDelivered(msgs, u, decode);
    DeliveredHasOrigin(msgs, u, decode);
  }
}
