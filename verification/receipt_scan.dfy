/** The receipt-scan route around the text-recognition call: the upload
    checks, the removal of the Markdown code fences the model's answer may
    carry, the validation of the extracted expense and the fallback when
    the answered category is not one of the user's. The recognition call
    itself and `JSON.parse` are parameters. */
module ReceiptScan {
  import opened Common
  import opened Text
  import opened Domain
  import opened Validations
  import opened Seqs
  import Categories
  import Seed

  // ---- Upload checks ----

  /** `ALLOWED_TYPES`. */
  const AllowedTypes: set<string> := {"image/jpeg", "image/png", "image/webp", "image/heic", "image/heif"}

  /** `MAX_FILE_SIZE`: 4 MiB. */
  const MaxFileSize: nat := 4 * 1024 * 1024

  /** The uploaded file: its MIME type and its size in bytes. */
  datatype Upload = Upload(mime: string, size: nat)

  const NoImage := "No receipt image provided"
  const BadType := "Invalid file type. Please upload a JPEG, PNG, or WebP image."
  const TooLarge := "File too large. Maximum size is 4 MB."

  /** The three checks, in the route's order; `None` is a form field that
      is missing or not a file. */
  function CheckUpload(file: Option<Upload>): Reply<Upload> {
    match file
    case None => Err(400, NoImage)
    case Some(f) =>
      if f.mime !in AllowedTypes then Err(400, BadType)
      else if f.size > MaxFileSize then Err(400, TooLarge)
      else Ok(f)
  }

  /** An upload passes exactly when it is a JPEG, PNG, WebP, HEIC or HEIF
      image of at most 4194304 bytes; a failure names the first check
      failed. */
  lemma UploadChecks(file: Option<Upload>)
    ensures CheckUpload(file).Ok? <==>
      && file.Some?
      && file.value.mime in {"image/jpeg", "image/png", "image/webp", "image/heic", "image/heif"}
      && file.value.size <= 4194304
    ensures CheckUpload(file).Ok? ==> CheckUpload(file).value == file.value
    ensures file.None? ==> CheckUpload(file) == Err(400, NoImage)
    ensures file.Some? && file.value.mime !in AllowedTypes ==> CheckUpload(file) == Err(400, BadType)
    ensures file.Some? && file.value.mime in AllowedTypes && file.value.size > 4194304 ==>
      CheckUpload(file) == Err(400, TooLarge)
  {
  }

  /** The size bound is inclusive: exactly 4 MiB passes, one byte more does
      not. */
  lemma SizeBoundary(mime: string)
    requires mime in AllowedTypes
    ensures CheckUpload(Some(Upload(mime, 4194304))).Ok?
    ensures CheckUpload(Some(Upload(mime, 4194305))) == Err(400, TooLarge)
  {
  }

  // ---- Code fences ----

  const Fence := "```"

  /** `json` in any mix of cases (the `i` flag folds ASCII letters only). */
  predicate IsJsonTag(w: string) {
    && |w| == 4
    && (w[0] == 'j' || w[0] == 'J') && (w[1] == 's' || w[1] == 'S')
    && (w[2] == 'o' || w[2] == 'O') && (w[3] == 'n' || w[3] == 'N')
  }

  predicate StartsWithFence(t: string) {
    |t| >= 3 && t[..3] == Fence
  }

  /** The text ends with a fence, possibly followed by white space. */
  predicate EndsWithFence(t: string) {
    var v := TrimEnd(t);
    |v| >= 3 && v[|v| - 3..] == Fence
  }

  /** Where the backticks and the optional `json` of an opening fence
      end. */
  function TagEnd(t: string): (k: nat)
    requires StartsWithFence(t)
    ensures k == 3 || (k == 7 && |t| >= 7 && IsJsonTag(t[3..7]))
    ensures k == 3 ==> !(|t| >= 7 && IsJsonTag(t[3..7]))
  {
    if |t| >= 7 && IsJsonTag(t[3..7]) then 7 else 3
  }

  /** How much leading white space `w` has. */
  function SpaceLen(w: string): (n: nat)
    ensures n <= |w| && TrimStart(w) == w[n..]
  {
    |w| - |TrimStart(w)|
  }

  /** The length of the match of `/^```(?:json)?\s*\n?/i`, 0 when there is
      none: the greedy `\s*` takes every white-space character, new lines
      included, so the `\n?` after it matches nothing. */
  function OpenFenceLen(t: string): (n: nat)
    ensures n <= |t|
  {
    if !StartsWithFence(t) then 0
    else TagEnd(t) + SpaceLen(t[TagEnd(t)..])
  }

  /** Where the match of `/\n?```\s*$/i` starts, `|u|` when there is none.
      The leftmost match takes the last three backticks before the trailing
      white space, and the new line just before them when there is one. */
  function CloseFenceStart(u: string): (n: nat)
    ensures n <= |u|
  {
    var v := TrimEnd(u);
    if |v| >= 3 && v[|v| - 3..] == Fence then
      if |v| >= 4 && u[|v| - 4] == '\n' then |v| - 4 else |v| - 3
    else |u|
  }

  /** `stripCodeFences`: the two replacements, one after the other. */
  function StripCodeFences(text: string): string {
    var u := text[OpenFenceLen(text)..];
    u[..CloseFenceStart(u)]
  }

  predicate AllSpace(s: string) {
    forall k :: 0 <= k < |s| ==> IsJsSpace(s[k])
  }

  /** An opening fence: three backticks, perhaps `json`, then white space. */
  predicate IsOpenFence(p: string) {
    && StartsWithFence(p)
    && (AllSpace(p[3..]) || (|p| >= 7 && IsJsonTag(p[3..7]) && AllSpace(p[7..])))
  }

  /** A closing fence: perhaps a new line, three backticks, then white
      space. */
  predicate IsCloseFence(q: string) {
    || (|q| >= 3 && q[..3] == Fence && AllSpace(q[3..]))
    || (|q| >= 4 && q[0] == '\n' && q[1..4] == Fence && AllSpace(q[4..]))
  }

  /** What `TrimStart` drops is a run of white space, and what it keeps
      does not start with white space. */
  lemma SpaceRun(w: string)
    ensures var n := SpaceLen(w);
      AllSpace(w[..n]) && (n == |w| || !IsJsSpace(w[n]))
  {
    TrimStartDropsSpace(w);
  }

  /** Cutting three backticks, perhaps `json`, and the white space after
      them cuts an opening fence, after which no white space is left at the
      front. */
  lemma OpenCut(text: string)
    requires StartsWithFence(text)
    ensures var a := OpenFenceLen(text);
      IsOpenFence(text[..a]) && (a == |text| || !IsJsSpace(text[a]))
  {
    var k := TagEnd(text);
    var w := text[k..];
    var n := SpaceLen(w);
    var a := k + n;
    SpaceRun(w);
    var p := text[..a];
    assert p[..3] == text[..3];
    assert p[k..] == w[..n];
    if k == 7 {
      assert p[3..7] == text[3..7];
    }
    if a < |text| {
      assert text[a] == w[n];
    }
  }

  /** The opening replacement cuts a fence exactly when the text starts
      with one, and all the white space after it. */
  lemma OpenShape(text: string)
    ensures var a := OpenFenceLen(text);
      && (a > 0 <==> StartsWithFence(text))
      && (a > 0 ==> IsOpenFence(text[..a]) && (a == |text| || !IsJsSpace(text[a])))
  {
    if StartsWithFence(text) {
      OpenCut(text);
    }
  }

  /** The closing replacement cuts a fence exactly when the text ends with
      one. */
  lemma CloseShape(u: string)
    ensures var b := CloseFenceStart(u);
      && (b < |u| <==> EndsWithFence(u))
      && (b < |u| ==> IsCloseFence(u[b..]))
  {
    var v := TrimEnd(u);
    var b := CloseFenceStart(u);
    if b < |u| {
      var e := |v| - 3;
      assert u[e..|v|] == Fence;
      assert AllSpace(u[|v|..]);
      if b == e - 1 {
        assert u[b..][1..4] == Fence && u[b..][4..] == u[|v|..];
      } else {
        assert u[b..][..3] == Fence && u[b..][3..] == u[|v|..];
      }
    }
  }

  /** The result is the text with at most one opening fence cut from its
      front, exactly when it starts with one, and at most one closing fence
      cut from the end of what is left, exactly when that ends with one;
      the opening cut swallows all the white space after the fence. */
  lemma StripShape(text: string)
    ensures var a := OpenFenceLen(text);
      var u := text[a..];
      var b := CloseFenceStart(u);
      && StripCodeFences(text) == text[a..a + b]
      && (a > 0 <==> StartsWithFence(text))
      && (a > 0 ==> IsOpenFence(text[..a]) && (|u| == 0 || !IsJsSpace(u[0])))
      && (b < |u| <==> EndsWithFence(u))
      && (b < |u| ==> IsCloseFence(u[b..]))
  {
    hide *;
    OpenShape(text);
    CloseShape(text[OpenFenceLen(text)..]);
    StripCuts(text);
  }

  /** The result in terms of the two cut positions. */
  lemma StripCuts(text: string)
    ensures var u := text[OpenFenceLen(text)..];
      StripCodeFences(text) == u[..CloseFenceStart(u)]
  {
  }

  /** Text that neither starts nor ends with a fence comes back unchanged. */
  lemma NoFenceUnchanged(text: string)
    requires !StartsWithFence(text) && !EndsWithFence(text)
    ensures StripCodeFences(text) == text
  {
  }

  /** A new line in front adds one to the leading white space. */
  lemma SpaceLenNewline(rest: string)
    ensures SpaceLen(['\n'] + rest) == 1 + SpaceLen(rest)
  {
    assert (['\n'] + rest)[1..] == rest;
  }

  /** When the fence (and tag) is followed by a new line and `rest`, the
      opening replacement leaves `rest` without its leading white space. */
  lemma OpenBeforeNewline(t: string, rest: string)
    requires StartsWithFence(t)
    requires t[TagEnd(t)..] == ['\n'] + rest
    ensures t[OpenFenceLen(t)..] == TrimStart(rest)
  {
    var k := TagEnd(t);
    SpaceLenNewline(rest);
    assert t[k + 1..] == rest;
    assert t[k + 1 + SpaceLen(rest)..] == rest[SpaceLen(rest)..];
  }

  /** The fenced text the model answers, for a tag and a body. */
  function Wrapped(tag: string, body: string): string {
    Fence + tag + "\n" + body + "\n" + Fence
  }

  /** The fence of a wrapped body ends after the tag. */
  lemma WrappedTagEnd(tag: string, body: string)
    requires tag == "" || IsJsonTag(tag)
    ensures StartsWithFence(Wrapped(tag, body))
    ensures Wrapped(tag, body)[TagEnd(Wrapped(tag, body))..] == ['\n'] + (body + "\n" + Fence)
  {
    var t := Wrapped(tag, body);
    assert t[..3] == Fence;
    if tag == "" {
      assert t[3] == '\n';
    } else {
      assert t[3..7] == tag;
    }
    assert TagEnd(t) == 3 + |tag|;
  }

  /** What the opening replacement leaves of a fenced body. */
  lemma OpenOfWrapped(tag: string, body: string)
    requires tag == "" || IsJsonTag(tag)
    requires |body| == 0 || !IsJsSpace(body[0])
    ensures var t := Wrapped(tag, body);
      t[OpenFenceLen(t)..] == if |body| > 0 then body + "\n" + Fence else Fence
  {
    var rest := body + "\n" + Fence;
    WrappedTagEnd(tag, body);
    OpenBeforeNewline(Wrapped(tag, body), rest);
    if |body| > 0 {
      assert rest[0] == body[0];
    } else {
      assert rest == ['\n'] + Fence;
      assert rest[1..] == Fence;
    }
  }

  /** What the closing replacement leaves of a body followed by a fence on
      its own line. */
  lemma CloseOfWrapped(body: string)
    ensures CloseFenceStart(body + "\n" + Fence) == |body|
    ensures CloseFenceStart(Fence) == 0
  {
    var rest := body + "\n" + Fence;
    assert TrimEnd(rest) == rest;
    assert rest[|rest| - 3..] == Fence;
    assert rest[|body|] == '\n';
    assert TrimEnd(Fence) == Fence;
  }

  /** A body fenced the way the model fences it comes back as it was,
      provided it does not itself start with white space. */
  lemma StripWrapped(tag: string, body: string)
    requires tag == "" || IsJsonTag(tag)
    requires |body| == 0 || !IsJsSpace(body[0])
    ensures StripCodeFences(Wrapped(tag, body)) == body
  {
    hide *;
    OpenOfWrapped(tag, body);
    CloseOfWrapped(body);
    StripCuts(Wrapped(tag, body));
    assert (body + "\n" + Fence)[..|body|] == body;
  }

  /** `trim()`. */
  function Trim(s: string): string {
    TrimEnd(TrimStart(s))
  }

  // ---- The validated result ----

  /** `{ ...parsed, type: "EXPENSE" }`. */
  function WithExpenseType(parsed: map<string, Json>): map<string, Json> {
    parsed["type" := JStr("EXPENSE")]
  }

  /** Whatever type the model answered, the validated result is an
      expense, and the other four fields are the ones answered; the answer
      is accepted exactly when those four are. */
  lemma ResultIsExpense(parsed: map<string, Json>, emailOk: string -> bool)
    ensures Parse(ReceiptScanResultSchema, WithExpenseType(parsed), emailOk).Some? <==>
      && HasPositive(parsed, "amount")
      && HasStr(parsed, "categoryId") && |parsed["categoryId"].s| >= 1
      && HasStr(parsed, "date") && |parsed["date"].s| >= 1
      && HasStr(parsed, "description") && |parsed["description"].s| <= 255
    ensures Parse(ReceiptScanResultSchema, WithExpenseType(parsed), emailOk).Some? ==>
      var m := Parse(ReceiptScanResultSchema, WithExpenseType(parsed), emailOk).value;
      && "type" in m && m["type"] == JStr("EXPENSE")
      && "amount" in m && "amount" in parsed && m["amount"] == parsed["amount"]
      && "categoryId" in m && "categoryId" in parsed && m["categoryId"] == parsed["categoryId"]
      && "date" in m && "date" in parsed && m["date"] == parsed["date"]
      && "description" in m && "description" in parsed && m["description"] == parsed["description"]
  {
    var body := WithExpenseType(parsed);
    ReceiptResultAccepts(body, emailOk);
    if Parse(ReceiptScanResultSchema, body, emailOk).Some? {
      ReceiptResultFields(body, emailOk);
    }
  }

  /** The type the model answers makes no difference at all. */
  lemma TypeIgnored(parsed: map<string, Json>, answered: Json)
    ensures WithExpenseType(parsed["type" := answered]) == WithExpenseType(parsed)
  {
  }

  // ---- Category fallback ----

  /** A category as the route selects it: `select: { id: true, name: true }`. */
  datatype Choice = Choice(id: string, name: string)

  /** The user's expense categories: defaults and own, in listing order.
      The ensures is a proof aid; `ExpenseChoicesExact` states which choices
      the list holds. */
  function ExpenseChoices(cats: seq<Category>, userId: string): (r: seq<Choice>)
    ensures var l := Categories.ListCategories(cats, userId, Some("EXPENSE"));
      |r| == |l| && forall i :: 0 <= i < |r| ==> r[i] == Choice(l[i].id, l[i].name)
  {
    var l := Categories.ListCategories(cats, userId, Some("EXPENSE"));
    seq(|l|, (i: int) requires 0 <= i < |l| => Choice(l[i].id, l[i].name))
  }

  /** A choice is offered exactly when some stored expense category the
      user may use, a default or the user's own, has its id and name. */
  lemma ExpenseChoicesExact(cats: seq<Category>, userId: string, x: Choice)
    ensures x in ExpenseChoices(cats, userId)
        <==> exists c :: c in cats && Categories.Visible(c, userId) && c.kind == Expense && x == Choice(c.id, c.name)
  {
    var r := ExpenseChoices(cats, userId);
    var l := Categories.ListCategories(cats, userId, Some("EXPENSE"));
    if x in r {
      var i :| 0 <= i < |r| && r[i] == x;
      var c := l[i];
      assert c in multiset(l);
      Categories.ListExact(cats, userId, Some("EXPENSE"), c);
      assert c in cats && Categories.Visible(c, userId) && c.kind == Expense;
    }
    if exists c :: c in cats && Categories.Visible(c, userId) && c.kind == Expense && x == Choice(c.id, c.name) {
      var c :| c in cats && Categories.Visible(c, userId) && c.kind == Expense && x == Choice(c.id, c.name);
      Categories.ListExact(cats, userId, Some("EXPENSE"), c);
      assert c in multiset(cats);
      assert c in multiset(l);
      var i :| 0 <= i < |l| && l[i] == c;
      assert r[i] == x;
    }
  }

  /** The position of the first choice named `name` (`find` by name). */
  function FirstNamed(list: seq<Choice>, name: string): (r: Option<nat>)
    ensures r.Some? ==> r.value < |list| && list[r.value].name == name
    ensures r.Some? ==> forall k :: 0 <= k < r.value ==> list[k].name != name
    ensures r.None? <==> forall k :: 0 <= k < |list| ==> list[k].name != name
  {
    FirstWhere(list, (c: Choice) => c.name == name)
  }

  predicate HasId(list: seq<Choice>, id: string) {
    exists j :: 0 <= j < |list| && list[j].id == id
  }

  /** Keep a category id the list holds; otherwise take the first category
      named `otherName`, else the first category, else keep the id. */
  function FallbackWith(list: seq<Choice>, categoryId: string, otherName: string): string {
    if HasId(list, categoryId) then categoryId
    else
      match FirstNamed(list, otherName)
      case Some(j) => list[j].id
      case None => if |list| > 0 then list[0].id else categoryId
  }

  /** The name the route looks for, as written. */
  const WrittenFallbackName := "Other"

  /** The name of the seeded expense category the route means. */
  const IntendedFallbackName := "Other Expense"

  /** The fallback as written. */
  function FallbackAsWritten(list: seq<Choice>, categoryId: string): string {
    FallbackWith(list, categoryId, WrittenFallbackName)
  }

  /** The fallback as intended, the one `Scan` uses. */
  function Fallback(list: seq<Choice>, categoryId: string): string {
    FallbackWith(list, categoryId, IntendedFallbackName)
  }

  /** A known id is kept; an empty list keeps the id; otherwise the result
      is always an id from the list: the first one named `otherName` when
      there is one, else the first one. */
  lemma FallbackRule(list: seq<Choice>, categoryId: string, otherName: string)
    ensures var r := FallbackWith(list, categoryId, otherName);
      && (HasId(list, categoryId) ==> r == categoryId)
      && (|list| == 0 ==> r == categoryId)
      && (|list| > 0 ==> HasId(list, r))
      && (!HasId(list, categoryId) && FirstNamed(list, otherName).Some? ==>
            r == list[FirstNamed(list, otherName).value].id)
      && (!HasId(list, categoryId) && FirstNamed(list, otherName).None? && |list| > 0 ==>
            r == list[0].id)
  {
  }

  /** No seeded category is named "Other", while the tenth is named
      "Other Expense". */
  lemma SeedHasNoOther()
    ensures forall i :: 0 <= i < |Seed.DefaultCategories| ==> Seed.DefaultCategories[i].name != WrittenFallbackName
    ensures Seed.DefaultCategories[9].name == IntendedFallbackName
  {
    Seed.SeedKinds();
    forall i | 0 <= i < |Seed.DefaultCategories|
      ensures Seed.DefaultCategories[i].name != WrittenFallbackName
    {
      if i < 10 {
        assert Seed.DefaultCategories[i] == Seed.ExpenseDefaults[i];
      } else {
        assert Seed.DefaultCategories[i] == Seed.IncomeDefaults[i - 10];
      }
    }
    assert Seed.DefaultCategories[9] == Seed.ExpenseDefaults[9];
  }

  /** The discrepancy on two seeded categories in listing order and an id
      the list does not hold: as written the fallback takes the first
      category, as intended it takes "Other Expense". */
  lemma FallbackMissesOtherExpense()
    ensures var list := [Choice("c1", "Education"), Choice("c2", "Other Expense")];
      && FallbackAsWritten(list, "unknown") == "c1"
      && Fallback(list, "unknown") == "c2"
  {
    var list := [Choice("c1", "Education"), Choice("c2", "Other Expense")];
    assert list[0].name != WrittenFallbackName && list[1].name != WrittenFallbackName;
    assert list[0].name != IntendedFallbackName && list[1].name == IntendedFallbackName;
    assert !HasId(list, "unknown");
  }

  /** Once the defaults are seeded, every user's expense list holds the
      seeded "Other Expense" row, so the intended fallback of an unknown id
      is always a category of that name. */
  lemma SeededFallbackIsOtherExpense(cats: seq<Category>, newId: nat -> string, userId: string, categoryId: string)
    requires !Seed.HasDefault(cats)
    ensures var list := ExpenseChoices(Seed.RunSeed(cats, newId), userId);
      !HasId(list, categoryId) ==>
        exists j :: 0 <= j < |list| && list[j].id == Fallback(list, categoryId) && list[j].name == IntendedFallbackName
  {
    hide *;
    var list := ExpenseChoices(Seed.RunSeed(cats, newId), userId);
    SeededListHasOther(cats, newId, userId);
    if !HasId(list, categoryId) {
      var k :| 0 <= k < |list| && list[k].name == IntendedFallbackName;
      FallbackIsIntended(list, categoryId);
      FallbackRule(list, categoryId, IntendedFallbackName);
      var j := FirstNamed(list, IntendedFallbackName).value;
      assert list[j].id == Fallback(list, categoryId) && list[j].name == IntendedFallbackName;
    }
  }

  /** After seeding, every user's expense list holds a category named
      "Other Expense". */
  lemma SeededListHasOther(cats: seq<Category>, newId: nat -> string, userId: string)
    requires !Seed.HasDefault(cats)
    ensures var list := ExpenseChoices(Seed.RunSeed(cats, newId), userId);
      exists j :: 0 <= j < |list| && list[j].name == IntendedFallbackName
  {
    hide Seed.RunSeed, Seed.SeededRow, Categories.ListCategories, Fallback, FallbackWith, FirstNamed, HasId;
    var seeded := Seed.RunSeed(cats, newId);
    Seed.SeedAdds(cats, newId);
    Seed.SeedKinds();
    SeedHasNoOther();
    var c := seeded[|cats| + 9];
    assert c.isDefault && c.kind == Expense && c.name == IntendedFallbackName;
    assert c in multiset(seeded);
    Categories.ListExact(seeded, userId, Some("EXPENSE"), c);
    var l := Categories.ListCategories(seeded, userId, Some("EXPENSE"));
    assert c in multiset(l);
    var j :| 0 <= j < |l| && l[j] == c;
    var list := ExpenseChoices(seeded, userId);
    assert list[j].name == IntendedFallbackName;
  }

  // ---- The route ----

  const Unreadable := "Could not read the receipt. Please try a clearer photo."
  const NoDetails := "Could not extract transaction details from this receipt."

  /** `POST` after the recognition call: `answer` is the model's text
      (`None` when it has none) and `parseJson` stands for `JSON.parse`,
      `None` being a syntax error. An answered category id the user does
      not have goes through the fallback that looks for `otherName`. */
  function ScanWith(file: Option<Upload>, cats: seq<Category>, userId: string, answer: Option<string>,
                    parseJson: string -> Option<map<string, Json>>, emailOk: string -> bool,
                    otherName: string): Reply<map<string, Json>>
  {
    match CheckUpload(file)
    case Err(status, message) => Err(status, message)
    case Ok(_) =>
      var raw := Trim(answer.GetOr(""));
      if raw == "" then Err(422, Unreadable)
      else
        match parseJson(StripCodeFences(raw))
        case None => Err(422, Unreadable)
        case Some(parsed) =>
          match Parse(ReceiptScanResultSchema, WithExpenseType(parsed), emailOk)
          case None => Err(422, NoDetails)
          case Some(m) =>
            var list := ExpenseChoices(cats, userId);
            Ok(m["categoryId" := JStr(FallbackWith(list, StrOf(m, "categoryId"), otherName))])
  }

  /** The route as written: the fallback looks for "Other". */
  function ScanAsWritten(file: Option<Upload>, cats: seq<Category>, userId: string, answer: Option<string>,
                         parseJson: string -> Option<map<string, Json>>, emailOk: string -> bool): Reply<map<string, Json>>
  {
    ScanWith(file, cats, userId, answer, parseJson, emailOk, WrittenFallbackName)
  }

  /** The route as intended: the fallback looks for "Other Expense". */
  function Scan(file: Option<Upload>, cats: seq<Category>, userId: string, answer: Option<string>,
                parseJson: string -> Option<map<string, Json>>, emailOk: string -> bool): Reply<map<string, Json>>
  {
    ScanWith(file, cats, userId, answer, parseJson, emailOk, IntendedFallbackName)
  }

  /** The route as written and the route as intended fail alike, with the
      same status and message, and on success they return the same fields
      with the same values except, at most, the category id. */
  lemma ScanRoutesAgree(file: Option<Upload>, cats: seq<Category>, userId: string, answer: Option<string>,
                        parseJson: string -> Option<map<string, Json>>, emailOk: string -> bool)
    ensures var w := ScanAsWritten(file, cats, userId, answer, parseJson, emailOk);
      var c := Scan(file, cats, userId, answer, parseJson, emailOk);
      && (w.Err? <==> c.Err?)
      && (w.Err? ==> w == c)
      && (w.Ok? ==>
            && w.value.Keys == c.value.Keys
            && forall k :: k in w.value && k != "categoryId" ==> w.value[k] == c.value[k])
  {
  }

  /** Whichever name the fallback looks for, a successful scan answers an
      expense with the amount, date and description the model read, and a
      category id that is one of the user's expense categories whenever the
      user has any. */
  lemma ScanAnswer(file: Option<Upload>, cats: seq<Category>, userId: string, answer: Option<string>,
                   parseJson: string -> Option<map<string, Json>>, emailOk: string -> bool,
                   otherName: string)
    requires ScanWith(file, cats, userId, answer, parseJson, emailOk, otherName).Ok?
    ensures CheckUpload(file).Ok? && answer.Some? && Trim(answer.value) != ""
    ensures parseJson(StripCodeFences(Trim(answer.value))).Some?
    ensures var parsed := parseJson(StripCodeFences(Trim(answer.value))).value;
      var r := ScanWith(file, cats, userId, answer, parseJson, emailOk, otherName).value;
      var list := ExpenseChoices(cats, userId);
      && "type" in r && r["type"] == JStr("EXPENSE")
      && "amount" in parsed && "amount" in r && r["amount"] == parsed["amount"]
      && "date" in parsed && "date" in r && r["date"] == parsed["date"]
      && "description" in parsed && "description" in r && r["description"] == parsed["description"]
      && "categoryId" in r && r["categoryId"].JStr?
      && (|list| > 0 ==> HasId(list, r["categoryId"].s))
  {
    hide *;
    ScanSteps(file, cats, userId, answer, parseJson, emailOk, otherName);
    var parsed := parseJson(StripCodeFences(Trim(answer.value))).value;
    ResultIsExpense(parsed, emailOk);
    var m := Parse(ReceiptScanResultSchema, WithExpenseType(parsed), emailOk).value;
    var list := ExpenseChoices(cats, userId);
    FallbackRule(list, StrOf(m, "categoryId"), otherName);
  }

  /** A scan fails with 400 exactly when the upload checks fail, and with
      422 exactly when they pass but the answer is empty once trimmed, is
      not JSON, or is not a valid expense; a non-JSON answer and an empty
      one give the same message. */
  lemma ScanFailures(file: Option<Upload>, cats: seq<Category>, userId: string, answer: Option<string>,
                     parseJson: string -> Option<map<string, Json>>, emailOk: string -> bool,
                     otherName: string)
    ensures var r, raw := ScanWith(file, cats, userId, answer, parseJson, emailOk, otherName), Trim(answer.GetOr(""));
      var parsed := parseJson(StripCodeFences(raw));
      && (r.Err? && r.status == 400 <==> CheckUpload(file).Err?)
      && (r.Err? && r.status == 422 <==>
            && CheckUpload(file).Ok?
            && (|| raw == ""
                || parsed.None?
                || Parse(ReceiptScanResultSchema, WithExpenseType(parsed.value), emailOk).None?))
      && (r.Err? && r.status == 422 ==>
            r.message == (if raw == "" || parsed.None? then Unreadable else NoDetails))
  {
    hide CheckUpload, Trim, StripCodeFences, Parse, WithExpenseType, ExpenseChoices, FallbackWith, StrOf;
    UploadStatus(file);
  }

  lemma UploadStatus(file: Option<Upload>)
    ensures CheckUpload(file).Err? ==> CheckUpload(file).status == 400
  {
  }

  /** The steps a successful scan has passed, and its answer: the validated
      result with its category id put through the fallback for
      `otherName`. */
  lemma ScanSteps(file: Option<Upload>, cats: seq<Category>, userId: string, answer: Option<string>,
                  parseJson: string -> Option<map<string, Json>>, emailOk: string -> bool,
                  otherName: string)
    requires ScanWith(file, cats, userId, answer, parseJson, emailOk, otherName).Ok?
    ensures CheckUpload(file).Ok? && answer.Some? && Trim(answer.value) != ""
    ensures parseJson(StripCodeFences(Trim(answer.value))).Some?
    ensures var parsed := parseJson(StripCodeFences(Trim(answer.value))).value;
      Parse(ReceiptScanResultSchema, WithExpenseType(parsed), emailOk).Some?
    ensures var parsed := parseJson(StripCodeFences(Trim(answer.value))).value;
      var m := Parse(ReceiptScanResultSchema, WithExpenseType(parsed), emailOk).value;
      ScanWith(file, cats, userId, answer, parseJson, emailOk, otherName).value ==
        m["categoryId" := JStr(FallbackWith(ExpenseChoices(cats, userId), StrOf(m, "categoryId"), otherName))]
  {
  }

  /** A proof aid: unfolds `Fallback` where it is hidden. */
  lemma FallbackIsIntended(list: seq<Choice>, categoryId: string)
    ensures Fallback(list, categoryId) == FallbackWith(list, categoryId, IntendedFallbackName)
  {
  }
}
