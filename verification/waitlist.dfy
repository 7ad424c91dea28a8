/** The waitlist server action of `lib/actions.ts`: the `waitlistSchema`
    validator and the outcome of `submitWaitlistForm`. The e-mail syntax check
    and the two mail senders are parameters. */
module Waitlist {
  import opened Wrappers

  /** The submitted object as it reaches the action: a missing key is `None`. */
  datatype Input = Input(
    name: Option<string>,
    email: Option<string>,
    city: Option<string>,
    bikeOwnership: Option<string>)

  /** The object `waitlistSchema.parse` returns. */
  datatype FormData = FormData(name: string, email: string, city: string, bikeOwnership: string)

  /** `error.flatten().fieldErrors`: the failing fields in schema order, each
      with its messages. */
  type FieldErrors = seq<(string, seq<string>)>

  const BikeOptions: seq<string> := ["yes", "no", "planning"]

  /** What the schema accepts, field by field. */
  predicate Accepted(i: Input, isEmail: string -> bool) {
    && i.name.Some? && |i.name.value| >= 2
    && i.email.Some? && isEmail(i.email.value)
    && i.city.Some? && |i.city.value| >= 2
    && i.bikeOwnership.Some? && i.bikeOwnership.value in BikeOptions
  }

  /** The message Zod gives a string field that is missing. */
  const Required: string := "Required"

  function NameIssue(v: Option<string>): Option<string> {
    match v
    case None => Some(Required)
    case Some(s) => if |s| < 2 then Some("Name must be at least 2 characters") else None
  }

  function EmailIssue(v: Option<string>, isEmail: string -> bool): Option<string> {
    match v
    case None => Some(Required)
    case Some(s) => if isEmail(s) then None else Some("Please enter a valid email address")
  }

  function CityIssue(v: Option<string>): Option<string> {
    match v
    case None => Some(Required)
    case Some(s) => if |s| < 2 then Some("City must be at least 2 characters") else None
  }

  /** Zod's default wording for a value outside an enum. */
  function InvalidEnum(s: string): string {
    "Invalid enum value. Expected 'yes' | 'no' | 'planning', received '" + s + "'"
  }

  function BikeIssue(v: Option<string>): Option<string> {
    match v
    case None => Some("Please select an option")
    case Some(s) => if s in BikeOptions then None else Some(InvalidEnum(s))
  }

  function Entry(field: string, issue: Option<string>): FieldErrors {
    if issue.Some? then [(field, [issue.value])] else []
  }

  function Fields(errors: FieldErrors): seq<string> {
    seq(|errors|, k requires 0 <= k < |errors| => errors[k].0)
  }

  /** `waitlistSchema.parse`: every field is checked, and every failing field
      contributes its one message. */
  function Validate(i: Input, isEmail: string -> bool): (r: Result<FormData, FieldErrors>)
    ensures r.Success? <==> Accepted(i, isEmail)
    ensures r.Success? ==> r.value == FormData(i.name.value, i.email.value, i.city.value, i.bikeOwnership.value)
    ensures r.Failure? ==> |r.error| >= 1 && |r.error| <= 4
  {
    var errors := Entry("name", NameIssue(i.name)) + Entry("email", EmailIssue(i.email, isEmail))
      + Entry("city", CityIssue(i.city)) + Entry("bikeOwnership", BikeIssue(i.bikeOwnership));
    if |errors| == 0 then
      Success(FormData(i.name.value, i.email.value, i.city.value, i.bikeOwnership.value))
    else Failure(errors)
  }

  /** Each field is reported exactly when it fails. */
  lemma ValidateFields(i: Input, isEmail: string -> bool)
    requires !Accepted(i, isEmail)
    ensures var e := Validate(i, isEmail).error;
      && ("name" in Fields(e) <==> !(i.name.Some? && |i.name.value| >= 2))
      && ("email" in Fields(e) <==> !(i.email.Some? && isEmail(i.email.value)))
      && ("city" in Fields(e) <==> !(i.city.Some? && |i.city.value| >= 2))
      && ("bikeOwnership" in Fields(e) <==> !(i.bikeOwnership.Some? && i.bikeOwnership.value in BikeOptions))
  {
    FieldNamesDistinct();
    Reported(i, isEmail, "name");
    Reported(i, isEmail, "email");
    Reported(i, isEmail, "city");
    Reported(i, isEmail, "bikeOwnership");
  }

  /** A field name is reported exactly when one of the four checks of that name fails. */
  lemma Reported(i: Input, isEmail: string -> bool, x: string)
    requires !Accepted(i, isEmail)
    ensures x in Fields(Validate(i, isEmail).error) <==>
      || (x == "name" && NameIssue(i.name).Some?)
      || (x == "email" && EmailIssue(i.email, isEmail).Some?)
      || (x == "city" && CityIssue(i.city).Some?)
      || (x == "bikeOwnership" && BikeIssue(i.bikeOwnership).Some?)
  {
    var e1, e2 := Entry("name", NameIssue(i.name)), Entry("email", EmailIssue(i.email, isEmail));
    var e3, e4 := Entry("city", CityIssue(i.city)), Entry("bikeOwnership", BikeIssue(i.bikeOwnership));
    assert Validate(i, isEmail).error == e1 + e2 + e3 + e4;
    FieldsOfEntry("name", NameIssue(i.name));
    FieldsOfEntry("email", EmailIssue(i.email, isEmail));
    FieldsOfEntry("city", CityIssue(i.city));
    FieldsOfEntry("bikeOwnership", BikeIssue(i.bikeOwnership));
    InFields(e1, e2, e3, e4, x);
  }

  lemma InFields(e1: FieldErrors, e2: FieldErrors, e3: FieldErrors, e4: FieldErrors, x: string)
    ensures x in Fields(e1 + e2 + e3 + e4) <==> x in Fields(e1) || x in Fields(e2) || x in Fields(e3) || x in Fields(e4)
  {
    assert Fields(e1 + e2 + e3 + e4) == Fields(e1) + Fields(e2) + Fields(e3) + Fields(e4);
  }

  lemma FieldNamesDistinct()
    ensures "name" != "email" && "name" != "city" && "name" != "bikeOwnership"
    ensures "email" != "city" && "email" != "bikeOwnership" && "city" != "bikeOwnership"
  {
    assert "name"[0] != "city"[0];
  }

  /** A failing field carries the message the schema gives that failure. */
  lemma ValidateMessages(i: Input, isEmail: string -> bool)
    requires !Accepted(i, isEmail)
    ensures var e := Validate(i, isEmail).error;
      && (i.name.Some? && |i.name.value| < 2 ==> ("name", ["Name must be at least 2 characters"]) in e)
      && (i.email.Some? && !isEmail(i.email.value) ==> ("email", ["Please enter a valid email address"]) in e)
      && (i.city.Some? && |i.city.value| < 2 ==> ("city", ["City must be at least 2 characters"]) in e)
      && (i.bikeOwnership.None? ==> ("bikeOwnership", ["Please select an option"]) in e)
  {
    var e1, e2 := Entry("name", NameIssue(i.name)), Entry("email", EmailIssue(i.email, isEmail));
    var e3, e4 := Entry("city", CityIssue(i.city)), Entry("bikeOwnership", BikeIssue(i.bikeOwnership));
    var e := e1 + e2 + e3 + e4;
    assert Validate(i, isEmail).error == e;
    if i.name.Some? && |i.name.value| < 2 {
      InParts(e1, e2, e3, e4, ("name", ["Name must be at least 2 characters"]));
    }
    if i.email.Some? && !isEmail(i.email.value) {
      InParts(e1, e2, e3, e4, ("email", ["Please enter a valid email address"]));
    }
    if i.city.Some? && |i.city.value| < 2 {
      InParts(e1, e2, e3, e4, ("city", ["City must be at least 2 characters"]));
    }
    if i.bikeOwnership.None? {
      InParts(e1, e2, e3, e4, ("bikeOwnership", ["Please select an option"]));
    }
  }

  lemma InParts<T>(a: seq<T>, b: seq<T>, c: seq<T>, d: seq<T>, x: T)
    requires x in a || x in b || x in c || x in d
    ensures x in a + b + c + d
  {
  }

  /** The failing fields come in schema order. */
  lemma ValidateOrder(i: Input, isEmail: string -> bool)
    requires !Accepted(i, isEmail)
    ensures var e := Validate(i, isEmail).error;
      forall k :: 0 <= k < |e| - 1 ==> Rank(e[k].0) < Rank(e[k + 1].0)
  {
    var e1, e2 := Entry("name", NameIssue(i.name)), Entry("email", EmailIssue(i.email, isEmail));
    var e3, e4 := Entry("city", CityIssue(i.city)), Entry("bikeOwnership", BikeIssue(i.bikeOwnership));
    var e := e1 + e2 + e3 + e4;
    assert Validate(i, isEmail).error == e;
    forall k | 0 <= k < |e| - 1
      ensures Rank(e[k].0) < Rank(e[k + 1].0)
    {
      EntryRank(e1, e2, e3, e4, k);
    }
  }

  lemma FieldsOfEntry(field: string, issue: Option<string>)
    ensures Fields(Entry(field, issue)) == if issue.Some? then [field] else []
  {
  }

  /** The position of a field in the schema. */
  function Rank(field: string): nat {
    if field == "name" then 0 else if field == "email" then 1 else if field == "city" then 2 else 3
  }

  lemma EntryRank(e1: FieldErrors, e2: FieldErrors, e3: FieldErrors, e4: FieldErrors, k: int)
    requires |e1| <= 1 && |e2| <= 1 && |e3| <= 1 && |e4| <= 1
    requires forall j :: 0 <= j < |e1| ==> e1[j].0 == "name"
    requires forall j :: 0 <= j < |e2| ==> e2[j].0 == "email"
    requires forall j :: 0 <= j < |e3| ==> e3[j].0 == "city"
    requires forall j :: 0 <= j < |e4| ==> e4[j].0 == "bikeOwnership"
    requires 0 <= k < |e1 + e2 + e3 + e4| - 1
    ensures var e := e1 + e2 + e3 + e4; Rank(e[k].0) < Rank(e[k + 1].0)
  {
    var e := e1 + e2 + e3 + e4;
    assert forall j :: 0 <= j < |e| ==>
      (j < |e1| ==> e[j].0 == "name")
      && (|e1| <= j < |e1| + |e2| ==> e[j].0 == "email")
      && (|e1| + |e2| <= j < |e1| + |e2| + |e3| ==> e[j].0 == "city")
      && (|e1| + |e2| + |e3| <= j ==> e[j].0 == "bikeOwnership");
  }

  /** The two mails the action asks the senders for. */
  datatype Mail =
    | UserConfirmation(to: string, name: string, city: string, bikeOwnership: string)
    | AdminNotification(name: string, email: string, city: string, bikeOwnership: string)

  /** The object `submitWaitlistForm` resolves to. */
  datatype Response =
    | Joined(message: string)
    | Rejected(errors: FieldErrors)
    | Failed(message: string)
  {
    predicate Success() { Joined? }
  }

  /** The response, and each mail handed to a sender with the sender's
      reported success, in order. */
  datatype Submission = Submission(response: Response, sent: seq<(Mail, bool)>)

  const JoinedMessage: string := "Successfully joined the waitlist!"
  const FailedMessage: string := "Something went wrong. Please try again."

  /** `submitWaitlistForm`. `deliver` is what a sender reports (the senders
      catch their own errors and report `success: false`); `fault` is an
      unexpected throw after that many steps of the happy path (0: before the
      first mail, 1: between the mails, 2 or more: after both). */
  function Submit(i: Input, isEmail: string -> bool, deliver: Mail -> bool, fault: Option<nat>): (r: Submission)
    ensures r.response.Success() <==> Accepted(i, isEmail) && fault.None?
    ensures !Accepted(i, isEmail) ==> r.sent == [] && r.response == Rejected(Validate(i, isEmail).error)
    ensures Accepted(i, isEmail) && fault.None? ==> r.response == Joined(JoinedMessage)
    ensures Accepted(i, isEmail) && fault.Some? ==> r.response == Failed(FailedMessage)
    ensures Accepted(i, isEmail) ==> |r.sent| == (if fault.Some? && fault.value < 2 then fault.value else 2)
    ensures Accepted(i, isEmail) && |r.sent| >= 1 ==>
      r.sent[0] == (UserConfirmation(i.email.value, i.name.value, i.city.value, i.bikeOwnership.value),
                    deliver(UserConfirmation(i.email.value, i.name.value, i.city.value, i.bikeOwnership.value)))
    ensures Accepted(i, isEmail) && |r.sent| == 2 ==>
      r.sent[1].0 == AdminNotification(i.name.value, i.email.value, i.city.value, i.bikeOwnership.value)
  {
    match Validate(i, isEmail)
    case Failure(errors) => Submission(Rejected(errors), [])
    case Success(d) =>
      var user := UserConfirmation(d.email, d.name, d.city, d.bikeOwnership);
      var admin := AdminNotification(d.name, d.email, d.city, d.bikeOwnership);
      var steps := if fault.Some? && fault.value < 2 then fault.value else 2;
      var sent := [(user, deliver(user)), (admin, deliver(admin))][..steps];
      Submission(if fault.Some? then Failed(FailedMessage) else Joined(JoinedMessage), sent)
  }

  /** What the senders report never changes the response. */
  lemma DeliveryIgnored(i: Input, isEmail: string -> bool, d1: Mail -> bool, d2: Mail -> bool, fault: Option<nat>)
    ensures Submit(i, isEmail, d1, fault).response == Submit(i, isEmail, d2, fault).response
    ensures |Submit(i, isEmail, d1, fault).sent| == |Submit(i, isEmail, d2, fault).sent|
  {
  }

  /** A rejected submission sends nothing and reports at least one field. */
  lemma RejectedSendsNothing(i: Input, isEmail: string -> bool, deliver: Mail -> bool, fault: Option<nat>)
    ensures Submit(i, isEmail, deliver, fault).response.Rejected? <==> !Accepted(i, isEmail)
    ensures Submit(i, isEmail, deliver, fault).response.Rejected? ==>
      Submit(i, isEmail, deliver, fault).sent == [] && |Submit(i, isEmail, deliver, fault).response.errors| >= 1
  {
  }
}
