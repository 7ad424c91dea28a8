/** The plain-text bodies of the two e-mails: `adminNotificationText` and
    `userConfirmationText`. Each pushes lines, some only when an optional
    field is truthy, and joins them with newlines. */
module Emails {
  import opened Wrappers
  import Text

  /** An optional string prop is truthy: present and non-empty. */
  predicate Given(o: Option<string>) {
    o.Some? && o.value != ""
  }

  function OptLine(cond: bool, line: string): (r: seq<string>)
    ensures |r| == if cond then 1 else 0
    ensures cond ==> r == [line]
  {
    if cond then [line] else []
  }

  /** The lines that start with `c`, in order. */
  function LinesLed(lines: seq<string>, c: char): seq<string>
    decreases |lines|
  {
    if |lines| == 0 then []
    else (if |lines[0]| > 0 && lines[0][0] == c then [lines[0]] else []) + LinesLed(lines[1..], c)
  }

  lemma {:induction false} LedConcat(a: seq<string>, b: seq<string>, c: char)
    ensures LinesLed(a + b, c) == LinesLed(a, c) + LinesLed(b, c)
    decreases |a|
  {
    if |a| > 0 {
      assert (a + b)[1..] == a[1..] + b;
      LedConcat(a[1..], b, c);
    } else {
      assert a + b == b;
    }
  }

  lemma {:induction false} NoneLed(lines: seq<string>, c: char)
    requires forall i :: 0 <= i < |lines| ==> lines[i] == "" || lines[i][0] != c
    ensures LinesLed(lines, c) == []
    decreases |lines|
  {
    if |lines| > 0 {
      NoneLed(lines[1..], c);
    }
  }

  lemma OptLed(cond: bool, line: string, c: char)
    requires |line| > 0 && line[0] == c
    ensures LinesLed(OptLine(cond, line), c) == OptLine(cond, line)
  {
  }

  lemma OptNotLed(cond: bool, line: string, c: char)
    requires |line| > 0 && line[0] != c
    ensures LinesLed(OptLine(cond, line), c) == []
  {
  }

  lemma SingleLines(a: seq<string>, b: seq<string>)
    requires Text.NoPieceHas(a, '\n') && Text.NoPieceHas(b, '\n')
    ensures Text.NoPieceHas(a + b, '\n')
  {
    var ab := a + b;
    forall i | 0 <= i < |ab|
      ensures '\n' !in ab[i]
    {
      if i >= |a| { assert ab[i] == b[i - |a|]; }
    }
  }

  // ------------------------------------------------------------ admin

  /** The props `adminNotificationText` reads. */
  datatype Signup = Signup(
    name: string,
    email: string,
    city: string,
    bikeOwnership: string,
    timestamp: string,
    id: Option<string>,
    source: Option<string>,
    adminUrl: Option<string>)

  /** `bikeStatusText[bikeOwnership] ?? bikeOwnership` in the admin e-mail. */
  function AdminPhrase(v: string): (r: string)
    ensures v == "yes" ==> r == "Owns a bike"
    ensures v == "no" ==> r == "Doesn't own a bike"
    ensures v == "planning" ==> r == "Planning to get a bike"
    ensures v != "yes" && v != "no" && v != "planning" ==> r == v
  {
    if v == "yes" then "Owns a bike"
    else if v == "no" then "Doesn't own a bike"
    else if v == "planning" then "Planning to get a bike"
    else v
  }

  const AdminClosing: string := "This is an automated notification " + "from the Movrr waitlist system."

  function AdminHead(a: Signup): seq<string> {
    ["New Waitlist Signup - " + a.name + " (" + a.city + ")"]
  }

  function AdminBody(a: Signup): seq<string> {
    ["Email: " + a.email, "City: " + a.city, "Bike ownership: " + AdminPhrase(a.bikeOwnership),
     "Registered on: " + a.timestamp]
  }

  const AdminActions: seq<string> := ["", "Recommended actions:", "- Add to city launch list",
    "- Send personalized follow-up if needed", "- Track city demand for launch planning",
    "- Consider bike partnership " + "opportunities for non-owners"]

  const AdminTail: seq<string> := ["", AdminClosing]

  function AdminLines(a: Signup): (lines: seq<string>)
    ensures |lines| == 13 + (if Given(a.id) then 1 else 0) + (if Given(a.source) then 1 else 0)
      + (if Given(a.adminUrl) then 1 else 0)
    ensures lines[0] == "New Waitlist Signup - " + a.name + " (" + a.city + ")"
    ensures lines[|lines| - 1] == AdminClosing
  {
    AdminHead(a)
    + OptLine(Given(a.id), "ID: " + a.id.GetOr(""))
    + AdminBody(a)
    + OptLine(Given(a.source), "Source: " + a.source.GetOr(""))
    + AdminActions
    + OptLine(Given(a.adminUrl), "Admin dashboard: " + a.adminUrl.GetOr(""))
    + AdminTail
  }

  /** `adminNotificationText`. */
  function AdminText(a: Signup): string {
    Text.Join(AdminLines(a), "\n")
  }

  /** Each optional line of the admin e-mail appears exactly when its prop is
      truthy, and it is the only line with its first character. */
  lemma AdminOptionalLines(a: Signup)
    ensures LinesLed(AdminLines(a), 'I') == OptLine(Given(a.id), "ID: " + a.id.GetOr(""))
    ensures LinesLed(AdminLines(a), 'S') == OptLine(Given(a.source), "Source: " + a.source.GetOr(""))
    ensures LinesLed(AdminLines(a), 'A') == OptLine(Given(a.adminUrl), "Admin dashboard: " + a.adminUrl.GetOr(""))
  {
    var p0, p1, p2 := AdminHead(a), OptLine(Given(a.id), "ID: " + a.id.GetOr("")), AdminBody(a);
    var p3, p4 := OptLine(Given(a.source), "Source: " + a.source.GetOr("")), AdminActions;
    var p5, p6 := OptLine(Given(a.adminUrl), "Admin dashboard: " + a.adminUrl.GetOr("")), AdminTail;
    assert AdminLines(a) == p0 + p1 + p2 + p3 + p4 + p5 + p6;
    AdminLed(a, 'I');
    AdminLed(a, 'S');
    AdminLed(a, 'A');
    OptLed(Given(a.id), "ID: " + a.id.GetOr(""), 'I');
    OptNotLed(Given(a.id), "ID: " + a.id.GetOr(""), 'S');
    OptNotLed(Given(a.id), "ID: " + a.id.GetOr(""), 'A');
    OptNotLed(Given(a.source), "Source: " + a.source.GetOr(""), 'I');
    OptLed(Given(a.source), "Source: " + a.source.GetOr(""), 'S');
    OptNotLed(Given(a.source), "Source: " + a.source.GetOr(""), 'A');
    OptNotLed(Given(a.adminUrl), "Admin dashboard: " + a.adminUrl.GetOr(""), 'I');
    OptNotLed(Given(a.adminUrl), "Admin dashboard: " + a.adminUrl.GetOr(""), 'S');
    OptLed(Given(a.adminUrl), "Admin dashboard: " + a.adminUrl.GetOr(""), 'A');
  }

  /** The led lines of the admin e-mail come from its three optional parts only. */
  lemma AdminLed(a: Signup, c: char)
    requires c == 'I' || c == 'S' || c == 'A'
    ensures var p1 := OptLine(Given(a.id), "ID: " + a.id.GetOr(""));
      var p3 := OptLine(Given(a.source), "Source: " + a.source.GetOr(""));
      var p5 := OptLine(Given(a.adminUrl), "Admin dashboard: " + a.adminUrl.GetOr(""));
      LinesLed(AdminLines(a), c) == LinesLed(p1, c) + LinesLed(p3, c) + LinesLed(p5, c)
  {
    var p0, p1, p2 := AdminHead(a), OptLine(Given(a.id), "ID: " + a.id.GetOr("")), AdminBody(a);
    var p3, p4 := OptLine(Given(a.source), "Source: " + a.source.GetOr("")), AdminActions;
    var p5, p6 := OptLine(Given(a.adminUrl), "Admin dashboard: " + a.adminUrl.GetOr("")), AdminTail;
    AdminFixedLed(a, c);
    LedSeven(p0, p1, p2, p3, p4, p5, p6, c);
  }

  /** Filtering seven concatenated parts filters each part. */
  lemma LedSeven(p0: seq<string>, p1: seq<string>, p2: seq<string>, p3: seq<string>,
                 p4: seq<string>, p5: seq<string>, p6: seq<string>, c: char)
    requires LinesLed(p0, c) == [] && LinesLed(p2, c) == [] && LinesLed(p4, c) == [] && LinesLed(p6, c) == []
    ensures LinesLed(p0 + p1 + p2 + p3 + p4 + p5 + p6, c) == LinesLed(p1, c) + LinesLed(p3, c) + LinesLed(p5, c)
  {
    LedConcat(p0, p1, c);
    LedConcat(p0 + p1, p2, c);
    LedConcat(p0 + p1 + p2, p3, c);
    LedConcat(p0 + p1 + p2 + p3, p4, c);
    LedConcat(p0 + p1 + p2 + p3 + p4, p5, c);
    LedConcat(p0 + p1 + p2 + p3 + p4 + p5, p6, c);
  }

  /** The fixed lines of the admin e-mail start with none of `I`, `S`, `A`. */
  lemma AdminFixedLed(a: Signup, c: char)
    requires c == 'I' || c == 'S' || c == 'A'
    ensures LinesLed(AdminHead(a), c) == [] && LinesLed(AdminBody(a), c) == []
    ensures LinesLed(AdminActions, c) == [] && LinesLed(AdminTail, c) == []
  {
    assert AdminHead(a)[0][0] == 'N';
    NoneLed(AdminHead(a), c);
    assert AdminBody(a)[0][0] == 'E' && AdminBody(a)[1][0] == 'C' && AdminBody(a)[2][0] == 'B' && AdminBody(a)[3][0] == 'R';
    NoneLed(AdminBody(a), c);
    assert AdminActions[0] == "" && AdminActions[1][0] == 'R' && AdminActions[2][0] == '-';
    assert AdminActions[3][0] == '-' && AdminActions[4][0] == '-' && AdminActions[5][0] == '-';
    NoneLed(AdminActions, c);
    assert AdminTail[0] == "" && AdminTail[1][0] == 'T';
    NoneLed(AdminTail, c);
  }

  /** No line break inside any prop means none inside any line. */
  predicate AdminSingleLine(a: Signup) {
    && '\n' !in a.name && '\n' !in a.email && '\n' !in a.city && '\n' !in a.bikeOwnership
    && '\n' !in a.timestamp && '\n' !in a.id.GetOr("") && '\n' !in a.source.GetOr("")
    && '\n' !in a.adminUrl.GetOr("")
  }

  /** With single-line props, the text splits back into exactly the pushed
      lines: it opens with the signup headline and closes with the
      automated-notification sentence on a line of its own. */
  lemma AdminTextLines(a: Signup)
    requires AdminSingleLine(a)
    ensures Text.Split(AdminText(a), '\n') == AdminLines(a)
    ensures Text.Split(AdminText(a), '\n')[0] == "New Waitlist Signup - " + a.name + " (" + a.city + ")"
    ensures var t := AdminText(a);
      |t| > |AdminClosing| && t[|t| - |AdminClosing| - 1..] == "\n" + AdminClosing
  {
    AdminNoBreaks(a);
    Text.SplitJoin(AdminLines(a), '\n');
    AdminTextEnd(a);
  }

  lemma AdminTextEnd(a: Signup)
    ensures var t := AdminText(a);
      |t| > |AdminClosing| && t[|t| - |AdminClosing| - 1..] == "\n" + AdminClosing
  {
    JoinLast(AdminLines(a), "\n");
    LineAtEnd(AdminText(a), AdminClosing);
  }

  /** A text whose last line is `last`, after a line break, ends with both. */
  lemma LineAtEnd(t: string, last: string)
    requires |t| >= 1 + |last|
    requires t[|t| - |last|..] == last && t[|t| - |last| - 1..|t| - |last|] == "\n"
    ensures t[|t| - |last| - 1..] == "\n" + last
  {
    var k := |t| - |last|;
    assert t[k - 1..] == t[k - 1..k] + t[k..];
  }

  /** The bike line, with its phrase, is one of the lines. */
  lemma AdminBikeLine(a: Signup)
    ensures "Bike ownership: " + AdminPhrase(a.bikeOwnership) in AdminLines(a)
  {
    var p := AdminHead(a) + OptLine(Given(a.id), "ID: " + a.id.GetOr(""));
    assert AdminLines(a)[|p| + 2] == AdminBody(a)[2];
  }

  /** The registration line carries the timestamp verbatim, right after the
      bike line. */
  lemma AdminRegisteredLine(a: Signup)
    ensures "Registered on: " + a.timestamp in AdminLines(a)
    ensures exists k :: (0 < k < |AdminLines(a)|
      && AdminLines(a)[k - 1] == "Bike ownership: " + AdminPhrase(a.bikeOwnership)
      && AdminLines(a)[k] == "Registered on: " + a.timestamp)
  {
    var p := AdminHead(a) + OptLine(Given(a.id), "ID: " + a.id.GetOr(""));
    assert AdminLines(a)[|p| + 2] == AdminBody(a)[2];
    assert AdminLines(a)[|p| + 3] == AdminBody(a)[3];
  }

  lemma AdminNoBreaks(a: Signup)
    requires AdminSingleLine(a)
    ensures Text.NoPieceHas(AdminLines(a), '\n')
  {
    var p0, p1, p2 := AdminHead(a), OptLine(Given(a.id), "ID: " + a.id.GetOr("")), AdminBody(a);
    var p3, p4 := OptLine(Given(a.source), "Source: " + a.source.GetOr("")), AdminActions;
    var p5, p6 := OptLine(Given(a.adminUrl), "Admin dashboard: " + a.adminUrl.GetOr("")), AdminTail;
    AdminPiecesSingle(a);
    AdminFixedSingle();
    SingleLines(p0, p1);
    SingleLines(p0 + p1, p2);
    SingleLines(p0 + p1 + p2, p3);
    SingleLines(p0 + p1 + p2 + p3, p4);
    SingleLines(p0 + p1 + p2 + p3 + p4, p5);
    SingleLines(p0 + p1 + p2 + p3 + p4 + p5, p6);
  }

  lemma AdminPiecesSingle(a: Signup)
    requires AdminSingleLine(a)
    ensures Text.NoPieceHas(AdminHead(a), '\n') && Text.NoPieceHas(AdminBody(a), '\n')
    ensures Text.NoPieceHas(OptLine(Given(a.id), "ID: " + a.id.GetOr("")), '\n')
    ensures Text.NoPieceHas(OptLine(Given(a.source), "Source: " + a.source.GetOr("")), '\n')
    ensures Text.NoPieceHas(OptLine(Given(a.adminUrl), "Admin dashboard: " + a.adminUrl.GetOr("")), '\n')
  {
    AdminHeadSingle(a);
    AdminBodySingle(a);
    AdminOptSingle(a);
  }

  lemma AdminHeadSingle(a: Signup)
    requires AdminSingleLine(a)
    ensures Text.NoPieceHas(AdminHead(a), '\n')
  {
  }

  lemma AdminBodySingle(a: Signup)
    requires AdminSingleLine(a)
    ensures Text.NoPieceHas(AdminBody(a), '\n')
  {
    AdminContactSingle(a);
    AdminRideSingle(a);
  }

  lemma AdminContactSingle(a: Signup)
    requires AdminSingleLine(a)
    ensures '\n' !in "Email: " + a.email && '\n' !in "City: " + a.city
  {
  }

  lemma AdminRideSingle(a: Signup)
    requires AdminSingleLine(a)
    ensures '\n' !in "Bike ownership: " + AdminPhrase(a.bikeOwnership)
    ensures '\n' !in "Registered on: " + a.timestamp
  {
    PhrasesSingleLine(a.bikeOwnership);
  }

  lemma AdminOptSingle(a: Signup)
    requires AdminSingleLine(a)
    ensures Text.NoPieceHas(OptLine(Given(a.id), "ID: " + a.id.GetOr("")), '\n')
    ensures Text.NoPieceHas(OptLine(Given(a.source), "Source: " + a.source.GetOr("")), '\n')
    ensures Text.NoPieceHas(OptLine(Given(a.adminUrl), "Admin dashboard: " + a.adminUrl.GetOr("")), '\n')
  {
  }

  lemma PhrasesSingleLine(v: string)
    requires '\n' !in v
    ensures '\n' !in AdminPhrase(v) && '\n' !in UserPhrase(v)
  {
    if v == "yes" {
      YesSingle();
    } else if v == "no" {
      NoSingle();
    } else if v == "planning" {
      PlanningSingle();
    }
  }

  lemma YesSingle()
    ensures '\n' !in AdminPhrase("yes") && '\n' !in UserPhrase("yes")
  {
    assert '\n' !in "Owns a bike";
    assert '\n' !in "Perfect! You're ready to ride.";
  }

  lemma NoSingle()
    ensures '\n' !in AdminPhrase("no") && '\n' !in UserPhrase("no")
  {
    assert '\n' !in "Doesn't own a bike";
    assert '\n' !in "No worries - we'll help you get started.";
  }

  lemma PlanningSingle()
    ensures '\n' !in AdminPhrase("planning") && '\n' !in UserPhrase("planning")
  {
    assert '\n' !in "Planning to get a bike";
    UpdatedSingle();
  }

  lemma UpdatedSingle()
    ensures '\n' !in "Great! We'll keep you updated " + "on bike options."
  {
  }

  lemma AdminFixedSingle()
    ensures Text.NoPieceHas(AdminActions, '\n') && Text.NoPieceHas(AdminTail, '\n')
  {
    ActionsSingle();
    ClosingSingle();
  }

  lemma ActionsSingle()
    ensures Text.NoPieceHas(AdminActions, '\n')
  {
    RecommendedSingle();
    LaunchListSingle();
    FollowUpSingle();
    DemandSingle();
    LongActionSingle();
  }

  lemma RecommendedSingle()
    ensures '\n' !in "Recommended actions:"
  {
  }

  lemma LaunchListSingle()
    ensures '\n' !in "- Add to city launch list"
  {
  }

  lemma FollowUpSingle()
    ensures '\n' !in "- Send personalized follow-up if needed"
  {
  }

  lemma DemandSingle()
    ensures '\n' !in "- Track city demand for launch planning"
  {
  }

  lemma LongActionSingle()
    ensures '\n' !in "- Consider bike partnership " + "opportunities for non-owners"
  {
  }

  lemma ClosingSingle()
    ensures '\n' !in AdminClosing
  {
  }

  /** The joined text ends with the separator and the last line. */
  lemma {:induction false} JoinLast(lines: seq<string>, sep: string)
    requires |lines| >= 2
    ensures var t := Text.Join(lines, sep);
      var last := lines[|lines| - 1];
      && |t| >= |sep| + |last|
      && t[|t| - |last|..] == last && t[|t| - |last| - |sep|..|t| - |last|] == sep
    decreases |lines|
  {
    if |lines| > 2 {
      JoinLast(lines[1..], sep);
    }
  }

  // ------------------------------------------------------------- user

  /** The props `userConfirmationText` reads. */
  datatype Welcome = Welcome(name: string, city: string, bikeOwnership: string, id: Option<string>, ctaUrl: Option<string>)

  /** `bikeStatusText[bikeOwnership] ?? bikeOwnership` in the welcome e-mail. */
  function UserPhrase(v: string): (r: string)
    ensures v == "yes" ==> r == "Perfect! You're ready to ride."
    ensures v == "no" ==> r == "No worries - we'll help you get started."
    ensures v == "planning" ==> r == "Great! We'll keep you updated " + "on bike options."
    ensures v != "yes" && v != "no" && v != "planning" ==> r == v
  {
    if v == "yes" then "Perfect! You're ready to ride."
    else if v == "no" then "No worries - we'll help you get started."
    else if v == "planning" then "Great! We'll keep you updated " + "on bike options."
    else v
  }

  function UserHead(w: Welcome): seq<string> {
    ["Welcome to Movrr \U{2014} " + w.name, "", "City: " + w.city, "Bike status: " + UserPhrase(w.bikeOwnership)]
  }

  const UserNext: seq<string> := ["", "What happens next:", "- We will notify you when Movrr " + "launches in your city.",
    "- You will get early access to onboarding.", "- Start earning rewards while " + "exploring your city.", ""]

  const UserTail: seq<string> := ["", "Questions? Reply to this email.", "The Movrr Team"]

  function UserLines(w: Welcome): (lines: seq<string>)
    ensures |lines| == 13 + (if Given(w.id) then 1 else 0) + (if Given(w.ctaUrl) then 1 else 0)
    ensures lines[0] == "Welcome to Movrr \U{2014} " + w.name && lines[1] == ""
    ensures lines[|lines| - 2] == "Questions? Reply to this email." && lines[|lines| - 1] == "The Movrr Team"
  {
    UserHead(w)
    + OptLine(Given(w.id), "Signup ID: " + w.id.GetOr(""))
    + UserNext
    + OptLine(Given(w.ctaUrl), "Learn more: " + w.ctaUrl.GetOr(""))
    + UserTail
  }

  /** `userConfirmationText`. */
  function UserText(w: Welcome): string {
    Text.Join(UserLines(w), "\n")
  }

  /** The signup-id and learn-more lines appear exactly when their props are
      truthy, and each is the only line with its first character. */
  lemma UserOptionalLines(w: Welcome)
    ensures LinesLed(UserLines(w), 'S') == OptLine(Given(w.id), "Signup ID: " + w.id.GetOr(""))
    ensures LinesLed(UserLines(w), 'L') == OptLine(Given(w.ctaUrl), "Learn more: " + w.ctaUrl.GetOr(""))
  {
    var p0, p1, p2 := UserHead(w), OptLine(Given(w.id), "Signup ID: " + w.id.GetOr("")), UserNext;
    var p3, p4 := OptLine(Given(w.ctaUrl), "Learn more: " + w.ctaUrl.GetOr("")), UserTail;
    UserLed(w, 'S');
    UserLed(w, 'L');
    OptLed(Given(w.id), "Signup ID: " + w.id.GetOr(""), 'S');
    OptNotLed(Given(w.id), "Signup ID: " + w.id.GetOr(""), 'L');
    OptNotLed(Given(w.ctaUrl), "Learn more: " + w.ctaUrl.GetOr(""), 'S');
    OptLed(Given(w.ctaUrl), "Learn more: " + w.ctaUrl.GetOr(""), 'L');
  }

  lemma UserLed(w: Welcome, c: char)
    requires c == 'S' || c == 'L'
    ensures var p1 := OptLine(Given(w.id), "Signup ID: " + w.id.GetOr(""));
      var p3 := OptLine(Given(w.ctaUrl), "Learn more: " + w.ctaUrl.GetOr(""));
      LinesLed(UserLines(w), c) == LinesLed(p1, c) + LinesLed(p3, c)
  {
    var p0, p1, p2 := UserHead(w), OptLine(Given(w.id), "Signup ID: " + w.id.GetOr("")), UserNext;
    var p3, p4 := OptLine(Given(w.ctaUrl), "Learn more: " + w.ctaUrl.GetOr("")), UserTail;
    UserFixedLed(w, c);
    LedFive(p0, p1, p2, p3, p4, c);
  }

  /** Filtering five concatenated parts filters each part. */
  lemma LedFive(p0: seq<string>, p1: seq<string>, p2: seq<string>, p3: seq<string>, p4: seq<string>, c: char)
    requires LinesLed(p0, c) == [] && LinesLed(p2, c) == [] && LinesLed(p4, c) == []
    ensures LinesLed(p0 + p1 + p2 + p3 + p4, c) == LinesLed(p1, c) + LinesLed(p3, c)
  {
    LedConcat(p0, p1, c);
    LedConcat(p0 + p1, p2, c);
    LedConcat(p0 + p1 + p2, p3, c);
    LedConcat(p0 + p1 + p2 + p3, p4, c);
  }

  /** The fixed lines of the welcome e-mail start with neither `S` nor `L`. */
  lemma UserFixedLed(w: Welcome, c: char)
    requires c == 'S' || c == 'L'
    ensures LinesLed(UserHead(w), c) == [] && LinesLed(UserNext, c) == [] && LinesLed(UserTail, c) == []
  {
    UserHeadLed(w, c);
    UserNextLed(c);
    UserTailLed(c);
  }

  lemma UserHeadLed(w: Welcome, c: char)
    requires c == 'S' || c == 'L'
    ensures LinesLed(UserHead(w), c) == []
  {
    assert UserHead(w)[0][0] == 'W' && UserHead(w)[1] == "" && UserHead(w)[2][0] == 'C' && UserHead(w)[3][0] == 'B';
    NoneLed(UserHead(w), c);
  }

  lemma UserNextLed(c: char)
    requires c == 'S' || c == 'L'
    ensures LinesLed(UserNext, c) == []
  {
    assert UserNext[0] == "" && UserNext[1][0] == 'W' && UserNext[2][0] == '-';
    assert UserNext[3][0] == '-' && UserNext[4][0] == '-' && UserNext[5] == "";
    NoneLed(UserNext, c);
  }

  lemma UserTailLed(c: char)
    requires c == 'S' || c == 'L'
    ensures LinesLed(UserTail, c) == []
  {
    assert UserTail[0] == "" && UserTail[1][0] == 'Q' && UserTail[2][0] == 'T';
    NoneLed(UserTail, c);
  }


  predicate UserSingleLine(w: Welcome) {
    && '\n' !in w.name && '\n' !in w.city && '\n' !in w.bikeOwnership
    && '\n' !in w.id.GetOr("") && '\n' !in w.ctaUrl.GetOr("")
  }

  /** With single-line props, the welcome text splits back into exactly the
      pushed lines and closes with the two sign-off lines. */
  lemma UserTextLines(w: Welcome)
    requires UserSingleLine(w)
    ensures Text.Split(UserText(w), '\n') == UserLines(w)
    ensures var t := UserText(w);
      var tail := UserTail[1] + "\n" + UserTail[2];
      |t| >= |tail| && t[|t| - |tail|..] == tail
  {
    var lines := UserLines(w);
    UserNoBreaks(w);
    Text.SplitJoin(lines, '\n');
    JoinTwoLast(lines, "\n");
  }

  lemma UserNoBreaks(w: Welcome)
    requires UserSingleLine(w)
    ensures Text.NoPieceHas(UserLines(w), '\n')
  {
    var p0, p1, p2 := UserHead(w), OptLine(Given(w.id), "Signup ID: " + w.id.GetOr("")), UserNext;
    var p3, p4 := OptLine(Given(w.ctaUrl), "Learn more: " + w.ctaUrl.GetOr("")), UserTail;
    PhrasesSingleLine(w.bikeOwnership);
    assert Text.NoPieceHas(p0, '\n') && Text.NoPieceHas(p1, '\n') && Text.NoPieceHas(p3, '\n');
    UserFixedSingle();
    SingleLines(p0, p1);
    SingleLines(p0 + p1, p2);
    SingleLines(p0 + p1 + p2, p3);
    SingleLines(p0 + p1 + p2 + p3, p4);
  }

  lemma UserFixedSingle()
    ensures Text.NoPieceHas(UserNext, '\n') && Text.NoPieceHas(UserTail, '\n')
  {
    NotifySingle();
    RewardsSingle();
    WhatNextSingle();
    OnboardingSingle();
    QuestionsSingle();
    NextSingle(UserNext[0], UserNext[1], UserNext[2], UserNext[3], UserNext[4], UserNext[5]);
    assert UserNext == [UserNext[0], UserNext[1], UserNext[2], UserNext[3], UserNext[4], UserNext[5]];
  }

  lemma WhatNextSingle()
    ensures '\n' !in "What happens next:"
  {
  }

  lemma OnboardingSingle()
    ensures '\n' !in "- You will get early access to onboarding."
  {
  }

  lemma QuestionsSingle()
    ensures '\n' !in "Questions? Reply to this email." && '\n' !in "The Movrr Team"
  {
  }

  lemma NextSingle(l0: string, l1: string, l2: string, l3: string, l4: string, l5: string)
    requires '\n' !in l0 && '\n' !in l1 && '\n' !in l2 && '\n' !in l3 && '\n' !in l4 && '\n' !in l5
    ensures Text.NoPieceHas([l0, l1, l2, l3, l4, l5], '\n')
  {
  }

  lemma NotifySingle()
    ensures '\n' !in "- We will notify you when Movrr " + "launches in your city."
  {
  }

  lemma RewardsSingle()
    ensures '\n' !in "- Start earning rewards while " + "exploring your city."
  {
  }

  /** The joined text ends with the last two lines joined by the separator. */
  lemma {:induction false} JoinTwoLast(lines: seq<string>, sep: string)
    requires |lines| >= 2
    ensures var t := Text.Join(lines, sep);
      var tail := lines[|lines| - 2] + sep + lines[|lines| - 1];
      |t| >= |tail| && t[|t| - |tail|..] == tail
    decreases |lines|
  {
    if |lines| > 2 {
      JoinTwoLast(lines[1..], sep);
    }
  }
}
