/** The occupational-health page (src/react-app/pages/Health.tsx): the expiry
    badge of each document, the partner selector, and the new-document form's
    submit guard, request and reset. */
module HealthPage {
  import opened Common
  import opened Schemas
  import opened Tables
  import opened Records
  import opened DueDates

  /** The badge of a document: "Vencido" when expired, "Vence em breve" when
      expiring soon, none otherwise. */
  function Badge(expiry: Option<int>, now: int): (badge: Option<string>)
    ensures badge.Some? <==> IsOverdue(expiry, now) || IsDueSoon(expiry, now)
    ensures IsOverdue(expiry, now) ==> badge == Some("Vencido")
    ensures badge == Some("Vence em breve") <==> IsDueSoon(expiry, now)
    ensures expiry.None? ==> badge.None?
  {
    var expired := IsOverdue(expiry, now);
    var expiring := IsDueSoon(expiry, now);
    if expired || expiring then Some(if expired then "Vencido" else "Vence em breve") else None
  }

  /** The form's `partner_id`: unset, a parsed id, or NaN. */
  datatype Selection = Unset | Picked(id: nat) | NotANumber

  /** The partner select's onChange: `value ? parseInt(value) : undefined`. */
  function PartnerSelection(value: string): (sel: Selection)
    ensures sel == Unset <==> value == ""
    ensures sel.Picked? <==> value != "" && IsDigit(value[0]) && !(HexPrefixed(value) && (|value| == 2 || !IsHexDigit(value[2])))
  {
    if value == "" then Unset
    else match ParseInt(value)
      case None => NotANumber
      case Some(n) => Picked(n)
  }

  /** Choosing a partner's option (its value is the partner id) selects that id. */
  lemma PartnerOptionSelects(id: nat)
    ensures PartnerSelection(NatToString(id)) == Picked(id)
  {
    ParseIntOfNatToString(id);
  }

  datatype HealthForm = HealthForm(
    documentType: string, documentUrl: string, expiryDate: string,
    partner: Selection, notes: string, clinicId: string)

  const EmptyForm := HealthForm("", "", "", Unset, "", "")

  /** The JSON body of the submit: an unset partner is left out, NaN is sent as null. */
  function SubmitBody(f: HealthForm): (body: Body)
    ensures "partner_id" in body <==> !f.partner.Unset?
    ensures body.Keys - {"partner_id"} == {"document_type", "document_url", "expiry_date", "notes"}
    ensures f.partner.Picked? ==> body["partner_id"] == JNum(f.partner.id)
    ensures f.partner.NotANumber? ==> body["partner_id"] == JNull
    ensures body["document_type"] == JStr(f.documentType) && body["document_url"] == JStr(f.documentUrl)
    ensures body["expiry_date"] == JStr(f.expiryDate) && body["notes"] == JStr(f.notes)
  {
    var base := map["document_type" := JStr(f.documentType), "document_url" := JStr(f.documentUrl),
                    "expiry_date" := JStr(f.expiryDate), "notes" := JStr(f.notes)];
    match f.partner
    case Unset => base
    case Picked(n) => base["partner_id" := JNum(n)]
    case NotANumber => base["partner_id" := JNull]
  }

  /** `handleSubmit`: nothing without a clinic, otherwise a POST to that
      clinic's health documents. */
  function SubmitRequest(f: HealthForm): (r: Option<Request>)
    ensures r.None? <==> f.clinicId == ""
    ensures r.Some? ==>
      (r.value.verb == Post
       && r.value.url == "/api/clinics/" + f.clinicId + "/health-documents"
       && r.value.body == SubmitBody(f))
  {
    if f.clinicId == "" then None
    else Some(Request(Post, "/api/clinics/" + f.clinicId + "/health-documents", SubmitBody(f)))
  }

  /** The server accepts a submitted form exactly when a document type is
      chosen and the partner is not NaN. */
  lemma SubmitAccepted(f: HealthForm)
    ensures Accepts(CreateHealthDocumentSchema, SubmitBody(f))
      <==> f.documentType != "" && !f.partner.NotANumber?
  {
    CreateHealthDocumentAccepts(SubmitBody(f));
  }

  /** A chosen partner (ids start at 1) is stored as that id; no partner is stored as null. */
  lemma SubmitStoresPartner(f: HealthForm)
    requires f.documentType != "" && !f.partner.NotANumber?
    ensures var cols := DocumentColumns(Strip(CreateHealthDocumentSchema, SubmitBody(f)));
      && (f.partner.Unset? ==> cols["partner_id"] == Null)
      && (f.partner.Picked? && f.partner.id > 0 ==> cols["partner_id"] == Num(f.partner.id))
      && cols["document_type"] == Text(f.documentType)
  {
    SubmitAccepted(f);
    DocumentCreateColumns(SubmitBody(f));
  }

  /** The document list, whether the modal is open, and the form. */
  datatype PageState = PageState(documents: seq<Row>, showModal: bool, form: HealthForm)

  /** The submit's response: on ok the new document goes first, the modal
      closes and the form empties; otherwise nothing changes. */
  function AfterSubmit(st: PageState, ok: bool, created: Row): (r: PageState)
    ensures !ok ==> r == st
    ensures ok ==>
      (|r.documents| == |st.documents| + 1 && r.documents[0] == created
       && r.documents[1..] == st.documents && !r.showModal && r.form == EmptyForm)
  {
    if ok then PageState([created] + st.documents, false, EmptyForm) else st
  }

  /** After a successful submit the clinic is cleared, so submitting again
      sends nothing until one is chosen. */
  lemma SubmitAgainNeedsClinic(st: PageState, created: Row)
    ensures SubmitRequest(AfterSubmit(st, true, created).form).None?
  {
  }
}
