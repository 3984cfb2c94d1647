/** A concrete mailbox run through the scan. */
module ScannerExamples {
  import opened Wrappers
  import opened Text
  import opened Scanner

  /** A decoder that knows one base64 text: `JVBERg==` is `%PDF`. */
  function Decode(t: string): Option<Bytes> {
    if t == "JVBERg==" then Some(PdfMagic) else None
  }

  const InvoicePdf: Attachment := Attachment(Some("invoice.pdf"), Some(PdfContentType), TextPayload("JVBERg=="))
  const Logo: Attachment := Attachment(Some("logo.png"), Some("image/png"), BytesPayload(PdfMagic))
  const Broken: Attachment := Attachment(Some("broken.pdf"), Some(PdfContentType), TextPayload("!!"))
  const NotPdf: Attachment := Attachment(Some("notes.pdf"), Some(PdfContentType), BytesPayload([0x50, 0x4B]))
  const Copy: Attachment := Attachment(Some("copy.pdf"), Some(PdfContentType), BytesPayload(PdfMagic + [0x2D]))

  /** An invoice mail with two valid PDFs among five attachments. */
  const Billing: Message := Message(11, Header(InvoiceMarker), [InvoicePdf, Logo, Broken, NotPdf, Copy])
  /** The same attachments under another subject. */
  const Newsletter: Message := Message(12, Header("Newsletter"), [InvoicePdf])
  /** A subject that is not text. */
  const Odd: Message := Message(13, NotText, [InvoicePdf])

  lemma AttachmentOutcomes()
    ensures Examine(InvoicePdf, Decode) == Accept(PdfMagic)
    ensures Examine(Logo, Decode) == Skip
    ensures Examine(Broken, Decode) == Skip
    ensures Examine(NotPdf, Decode) == Skip
    ensures Examine(Copy, Decode) == Accept(PdfMagic + [0x2D])
  {
    assert (PdfMagic + [0x2D])[..4] == PdfMagic;
  }

  lemma SubjectChecks()
    ensures IsInvoiceMail(Billing) && !IsInvoiceMail(Newsletter) && !IsInvoiceMail(Odd)
  {
    assert OccursAt(InvoiceMarker, 0, InvoiceMarker);
  }

  const InvoiceBill: Bill := Bill(Some("invoice.pdf"), PdfMagic)
  const CopyBill: Bill := Bill(Some("copy.pdf"), PdfMagic + [0x2D])

  /** The first four attachments of the billing mail give one bill. */
  lemma BillingPrefix()
    ensures ScanAttachments(Start, 11, Billing.attachments[..4], Decode) == Scan([InvoiceBill], [11], false)
  {
    AttachmentOutcomes();
    var atts := Billing.attachments;
    assert atts[..1][..0] == [];
    assert atts[..2][..1] == atts[..1] && atts[..3][..2] == atts[..2] && atts[..4][..3] == atts[..3];
    assert atts[..1] == [InvoicePdf];
    assert ScanAttachments(Start, 11, [], Decode) == Start;
    var s1 := ScanAttachments(Start, 11, atts[..1], Decode);
    assert s1 == Scan([InvoiceBill], [11], false);
    assert ScanAttachments(Start, 11, atts[..2], Decode) == s1;
    assert ScanAttachments(Start, 11, atts[..3], Decode) == s1;
  }

  /** The billing mail gives the invoice and its copy. */
  lemma BillingScan()
    ensures ScanAttachments(Start, 11, Billing.attachments, Decode) == Scan([InvoiceBill, CopyBill], [11, 11], false)
  {
    AttachmentOutcomes();
    BillingPrefix();
    var atts := Billing.attachments;
    assert atts[..|atts| - 1] == atts[..4];
  }

  /** Two moves of uid 11, one per valid PDF, and nothing from the other
      messages. */
  lemma MailboxExample()
    ensures ScanMessages([Billing, Newsletter, Odd], Decode) ==
      Scan([Bill(Some("invoice.pdf"), PdfMagic), Bill(Some("copy.pdf"), PdfMagic + [0x2D])], [11, 11], false)
  {
    SubjectChecks();
    BillingScan();
    var msgs := [Billing, Newsletter, Odd];
    assert msgs[..1][..0] == [] && msgs[..2][..1] == msgs[..1] && msgs[..3][..2] == msgs[..2];
    assert ScanMessages(msgs[..1], Decode) == ScanAttachments(Start, 11, Billing.attachments, Decode);
  }

  const Empty: Attachment := Attachment(Some("empty.pdf"), Some(PdfContentType), NoPayload)

  /** A PDF-typed attachment without payload ends the whole scan: the later
      invoice mail is neither collected nor moved. */
  lemma AbortExample()
    ensures ScanMessages([Message(14, Header(InvoiceMarker), [Empty, InvoicePdf]), Billing], Decode) == Scan([], [], true)
  {
    SubjectChecks();
    var m := Message(14, Header(InvoiceMarker), [Empty, InvoicePdf]);
    assert IsInvoiceMail(m);
    assert Examine(Empty, Decode) == Abort;
    var atts := m.attachments;
    assert atts[..1] == [Empty] && [Empty][..0] == [] && atts[..|atts|][..1] == atts[..1];
    assert ScanAttachments(Start, 14, [], Decode) == Start;
    assert ScanAttachments(Start, 14, atts[..1], Decode) == Scan([], [], true);
    var msgs := [m, Billing];
    assert msgs[..1] == [m] && [m][..0] == [] && msgs[..2][..1] == msgs[..1];
    assert ScanMessages(msgs[..1], Decode) == Scan([], [], true);
  }
}
