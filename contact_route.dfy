/** The public intake route `POST /api/contact`: the required-field check,
    the e-mail check, and the insert of one new lead. */
module ContactRoute {
  import opened Wrappers
  import opened JsText
  import opened EmailPatterns
  import opened LeadTable

  /** The JSON body of a submission; any field may be missing. */
  datatype ContactBody = ContactBody(
    name: Option<string>, email: Option<string>, phone: Option<string>, company: Option<string>,
    service: Option<string>, budget: Option<string>, timeline: Option<string>, message: Option<string>)

  const MissingFields := "Missing required fields: name, email, phone, service, message"
  const InvalidEmail := "Invalid email format"

  /** `!name || !email || !phone || !service || !message` is false: all five
      required fields are present and non-empty. */
  predicate RequiredPresent(b: ContactBody) {
    Truthy(b.name) && Truthy(b.email) && Truthy(b.phone) && Truthy(b.service) && Truthy(b.message)
  }

  /** The verdict of the two checks. */
  datatype Checked = Accepted(fields: LeadInput) | Refused(error: string)

  /** The two checks in the handler's order and the columns the insert then
      writes. */
  function Check(b: ContactBody): (r: Checked)
    ensures r.Refused? <==> !RequiredPresent(b) || !ServerEmailRegex(b.email.value)
    ensures r == Refused(MissingFields) <==> !RequiredPresent(b)
    ensures r == Refused(InvalidEmail) <==> RequiredPresent(b) && !ServerEmailRegex(b.email.value)
    ensures r.Accepted? ==>
      && r.fields.name == b.name.value && r.fields.email == b.email.value && r.fields.phone == b.phone.value
      && r.fields.service == b.service.value && r.fields.message == b.message.value
      && r.fields.company == OrNull(b.company) && r.fields.budget == OrNull(b.budget)
      && r.fields.timeline == OrNull(b.timeline)
  {
    if !RequiredPresent(b) then Refused(MissingFields)
    else if !ServerEmailRegex(b.email.value) then Refused(InvalidEmail)
    else Accepted(LeadInput(b.name.value, b.email.value, b.phone.value, OrNull(b.company),
                            b.service.value, OrNull(b.budget), OrNull(b.timeline), b.message.value))
  }

  /** An accepted submission has an address of the shape the pattern
      describes: no white space, one `@` with text before it, and a `.` with
      text on both sides after it. */
  lemma AcceptedEmailShape(b: ContactBody)
    requires Check(b).Accepted?
    ensures EmailShape(Check(b).fields.email)
  {
    ServerEmailRegexIffShape(b.email.value);
  }

  /** The check does not trim: a name of blanks passes it. */
  lemma BlankNameAccepted()
    ensures Check(ContactBody(Some(" "), Some("a@b.c"), Some("1"), None, Some("web"), None, None, Some("hi"))).Accepted?
  {
    var e := "a@b.c";
    assert e[..1] == "a" && e[2..3] == "b" && e[4..] == "c";
    assert ServerSplit(e, 1, 3);
  }

  datatype Submitted = Submitted(success: bool, message: string, requestId: nat, submittedAt: int)

  /** The handler: a refused body gives 400 and inserts nothing; an accepted
      one inserts exactly one row, with a fresh id and status `'new'`, and
      answers 201 with that row's id and time stamp, unless the database
      fails, which inserts nothing and ends the handler with the error. */
  method SubmitContact(t: Table, b: ContactBody, now: int, fault: Option<StoreFault>) returns (o: Outcome<Submitted>)
    requires t.Valid()
    modifies t
    ensures t.Valid()
    ensures Check(b).Refused? ==>
      o == Replied(Fail(400, Check(b).error)) && t.rows == old(t.rows) && t.nextId == old(t.nextId)
    ensures Check(b).Accepted? && fault.Some? ==>
      o == Threw(fault.value) && t.rows == old(t.rows) && t.nextId == old(t.nextId)
    ensures Check(b).Accepted? && fault.None? ==>
      && t.rows == old(t.rows) + [Lead(old(t.nextId), Check(b).fields, New, now, now)]
      && (forall x :: x in old(t.rows) ==> x.id != old(t.nextId))
      && o == Replied(Ok(201, Submitted(true, "Contact request submitted successfully", old(t.nextId), now)))
  {
    var c := Check(b);
    if c.Refused? {
      return Replied(Fail(400, c.error));
    }
    if fault.Some? {
      return Threw(fault.value);
    }
    var row := t.Insert(c.fields, now);
    o := Replied(Ok(201, Submitted(true, "Contact request submitted successfully", row.id, row.createdAt)));
  }
}
