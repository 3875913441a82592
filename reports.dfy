/** The medical-report and routine handlers (blueprints/ai/ai_bp.py): the
    upload pipeline with its extension check, the newest-first report
    listing, and the health-topic gate in front of routine generation.  Text
    extraction, summarisation and routine generation are foreign calls whose
    outcomes are parameters. */
module Reports {
  import opened Outcomes
  import opened Store

  // ---------------------------------------------------------------------------
  // Text helpers

  /** str.lower() on ASCII letters. */
  function Lower(s: string): (t: string)
    ensures |t| == |s|
    ensures forall i :: 0 <= i < |s| ==> t[i] == (if 'A' <= s[i] <= 'Z' then (s[i] as int + 32) as char else s[i])
  {
    if s == [] then [] else Lower(s[..|s| - 1]) + [if 'A' <= s[|s| - 1] <= 'Z' then (s[|s| - 1] as int + 32) as char else s[|s| - 1]]
  }

  lemma LowerAppend(a: string, b: string)
    ensures Lower(a + b) == Lower(a) + Lower(b)
  {
  }

  /** The needle occurs in the hay at position i. */
  predicate OccursAt(hay: string, needle: string, i: int) {
    0 <= i && i + |needle| <= |hay| && hay[i..i + |needle|] == needle
  }

  /** `needle in hay` for strings. */
  predicate Contains(hay: string, needle: string) {
    exists i :: 0 <= i <= |hay| && OccursAt(hay, needle, i)
  }

  /** A substring of a string is a substring of any text around it. */
  lemma ContainsWithin(prefix: string, hay: string, suffix: string, needle: string)
    requires Contains(hay, needle)
    ensures Contains(prefix + hay + suffix, needle)
  {
    var i :| 0 <= i <= |hay| && OccursAt(hay, needle, i);
    var whole := prefix + hay + suffix;
    assert whole[|prefix| + i..|prefix| + i + |needle|] == hay[i..i + |needle|];
    assert OccursAt(whole, needle, |prefix| + i);
  }

  // ---------------------------------------------------------------------------
  // upload_and_process

  /** The text after the last '.', the whole name when it has none. */
  function LastSegment(name: string): (seg: string)
    ensures '.' !in seg
    ensures |seg| <= |name| && seg == name[|name| - |seg|..]
    ensures |seg| < |name| ==> name[|name| - |seg| - 1] == '.'
  {
    if name == [] then []
    else if name[|name| - 1] == '.' then []
    else LastSegment(name[..|name| - 1]) + [name[|name| - 1]]
  }

  /** file.filename.split('.')[-1].lower() */
  function Extension(name: string): (ext: string)
    ensures '.' !in ext
    ensures |ext| <= |name|
  {
    var seg := LastSegment(name);
    LowerKeepsNoDot(seg);
    Lower(seg)
  }

  /** Lower-casing never produces a dot. */
  lemma LowerKeepsNoDot(s: string)
    requires '.' !in s
    ensures '.' !in Lower(s)
  {
    var t := Lower(s);
    forall i | 0 <= i < |t| ensures t[i] != '.' {
      assert s[i] != '.';
    }
  }

  const AllowedExtensions: set<string> := {"pdf", "jpg", "jpeg", "png"}

  /** The extension is what follows the final dot, lowercased, whatever precedes it. */
  lemma {:induction false} ExtensionAfterLastDot(stem: string, ext: string)
    requires '.' !in ext
    ensures Extension(stem + "." + ext) == Lower(ext)
    decreases |ext|
  {
    if ext == [] {
      assert (stem + "." + ext)[|stem + "." + ext| - 1] == '.';
    } else {
      var whole := stem + "." + ext;
      assert whole[..|whole| - 1] == stem + "." + ext[..|ext| - 1];
      ExtensionAfterLastDot(stem, ext[..|ext| - 1]);
      assert ext == ext[..|ext| - 1] + [ext[|ext| - 1]];
    }
  }

  /** A name without a dot is its own extension. */
  lemma {:induction false} ExtensionWithoutDot(name: string)
    requires '.' !in name
    ensures Extension(name) == Lower(name)
    decreases |name|
  {
    if name != [] {
      ExtensionWithoutDot(name[..|name| - 1]);
      assert name == name[..|name| - 1] + [name[|name| - 1]];
    }
  }

  const UnsupportedMessage: string := "Unsupported file format. Only PDF, JPG, JPEG, and PNG are allowed."

  /** upload_and_process against the database.  `filename` is the uploaded
      file's name (None when no file was sent); `extracted` and `summary` are
      the outcomes of the extraction and summarisation calls, run before the
      clerk id is looked at; `now` is the instant the report row is written. */
  method UploadAndProcess(db: Clinic, filename: Option<string>, clerkid: Option<string>,
                          extracted: Result<string>, summary: Result<string>, now: int)
    returns (r: Response<(string, string)>)
    requires db.Valid()
    modifies db
    ensures db.Valid()
    ensures !Given(filename) ==> r == Err(400, "No file uploaded")
    ensures Given(filename) && Extension(filename.value) !in AllowedExtensions ==> r == Err(400, UnsupportedMessage)
    ensures r.Ok? <==> && Given(filename) && Extension(filename.value) in AllowedExtensions
                       && extracted.Success? && summary.Success?
                       && Given(clerkid) && FindUser(old(db.users), clerkid.value).Some?
    ensures (&& Given(filename) && Extension(filename.value) in AllowedExtensions
             && extracted.Success? && summary.Success? && !Given(clerkid))
            ==> r == Err(400, "Clerk ID is missing from the request")
    ensures (&& Given(filename) && Extension(filename.value) in AllowedExtensions
             && extracted.Success? && summary.Success? && Given(clerkid) && FindUser(old(db.users), clerkid.value).None?)
            ==> r == Err(400, "User not found")
    ensures r.Ok? ==> && r == Ok(200, (extracted.value, summary.value))
                      && db.reports == old(db.reports) + [TextReport(clerkid.value, extracted.value, summary.value, now)]
    ensures r.Err? ==> db.reports == old(db.reports)
    ensures OthersUnchanged(db, Reports)
  {
    if !Given(filename) {
      return Err(400, "No file uploaded");
    }
    if Extension(filename.value) !in AllowedExtensions {
      return Err(400, UnsupportedMessage);
    }
    if extracted.Failure? {
      return Err(500, extracted.exception);
    }
    if summary.Failure? {
      return Err(500, summary.exception);
    }
    if !Given(clerkid) {
      return Err(400, "Clerk ID is missing from the request");
    }
    if FindUser(db.users, clerkid.value).None? {
      return Err(400, "User not found");
    }
    db.InsertReport(TextReport(clerkid.value, extracted.value, summary.value, now));
    r := Ok(200, (extracted.value, summary.value));
  }

  // ---------------------------------------------------------------------------
  // get_reports

  predicate NewestFirst(rs: seq<TextReport>) {
    forall i, j :: 0 <= i < j < |rs| ==> rs[i].createdAt >= rs[j].createdAt
  }

  /** Places a report before the first one that is not newer than it. */
  function Insert(r: TextReport, rs: seq<TextReport>): (out: seq<TextReport>)
    ensures multiset(out) == multiset(rs) + multiset{r}
    ensures |out| == |rs| + 1
  {
    if rs == [] || r.createdAt >= rs[0].createdAt then [r] + rs
    else
      assert rs == [rs[0]] + rs[1..];
      [rs[0]] + Insert(r, rs[1..])
  }

  lemma {:induction false} InsertKeepsOrder(r: TextReport, rs: seq<TextReport>)
    requires NewestFirst(rs)
    ensures NewestFirst(Insert(r, rs))
    decreases |rs|
  {
    if rs != [] && r.createdAt < rs[0].createdAt {
      InsertKeepsOrder(r, rs[1..]);
      var tail := Insert(r, rs[1..]);
      assert multiset(tail) == multiset(rs[1..]) + multiset{r};
      forall k | 0 <= k < |tail| ensures rs[0].createdAt >= tail[k].createdAt {
        assert tail[k] in multiset(tail);
        if tail[k] != r {
          assert tail[k] in multiset(rs[1..]);
          var m :| 0 <= m < |rs[1..]| && rs[1..][m] == tail[k];
          assert rs[1 + m] == tail[k];
        }
      }
    }
  }

  /** order_by(created_at.desc()): the rows newest first, rows created at the same instant in table order. */
  function SortNewestFirst(rs: seq<TextReport>): (out: seq<TextReport>)
    ensures multiset(out) == multiset(rs)
  {
    if rs == [] then []
    else
      assert rs == [rs[0]] + rs[1..];
      Insert(rs[0], SortNewestFirst(rs[1..]))
  }

  /** The listing is ordered newest first. */
  lemma {:induction false} SortNewestFirstOrders(rs: seq<TextReport>)
    ensures NewestFirst(SortNewestFirst(rs))
    decreases |rs|
  {
    if rs != [] {
      SortNewestFirstOrders(rs[1..]);
      InsertKeepsOrder(rs[0], SortNewestFirst(rs[1..]));
    }
  }

  /** filter_by(clerkid=clerkid): the user's reports, in table order. */
  function ReportsOf(rs: seq<TextReport>, clerkid: string): (out: seq<TextReport>)
    ensures forall t: TextReport :: multiset(out)[t] == if t.clerkid == clerkid then multiset(rs)[t] else 0
  {
    if rs == [] then []
    else
      assert rs == [rs[0]] + rs[1..];
      if rs[0].clerkid == clerkid then [rs[0]] + ReportsOf(rs[1..], clerkid) else ReportsOf(rs[1..], clerkid)
  }

  /** get_reports: 400 for an unknown clerk id, else the user's reports
      newest first, each as its two texts and creation instant. */
  function GetReports(users: seq<User>, reports: seq<TextReport>, clerkid: string): (r: Response<seq<TextReport>>)
    ensures r.Err? <==> FindUser(users, clerkid).None?
    ensures r.Err? ==> r == Err(400, "User not found")
    ensures r.Ok? ==> && r.status == 200 && NewestFirst(r.body)
                      && (forall i :: 0 <= i < |r.body| ==> r.body[i].clerkid == clerkid)
                      && (forall t: TextReport :: t.clerkid == clerkid ==> multiset(r.body)[t] == multiset(reports)[t])
  {
    if FindUser(users, clerkid).None? then Err(400, "User not found")
    else
      var mine := ReportsOf(reports, clerkid);
      var sorted := SortNewestFirst(mine);
      SortNewestFirstOrders(mine);
      assert forall i :: 0 <= i < |sorted| ==> multiset(sorted)[sorted[i]] > 0;
      Ok(200, sorted)
  }

  // ---------------------------------------------------------------------------
  // generate_routine

  const HealthKeywords: seq<string> := [
    "fitness", "exercise", "diet", "wellness", "health", "nutrition",
    "meditation", "yoga", "workout", "self-care", "sleep"]

  /** `any(keyword in goal.lower() for keyword in HEALTH_KEYWORDS)` */
  predicate HealthRelated(goal: string)
    ensures HealthRelated(goal) ==> |goal| >= 4
  {
    exists i :: 0 <= i < |HealthKeywords| && Contains(Lower(goal), HealthKeywords[i])
  }

  /** Adding text around an accepted goal keeps it accepted. */
  lemma HealthRelatedWithin(prefix: string, goal: string, suffix: string)
    requires HealthRelated(goal)
    ensures HealthRelated(prefix + goal + suffix)
  {
    var i :| 0 <= i < |HealthKeywords| && Contains(Lower(goal), HealthKeywords[i]);
    LowerAppend(prefix + goal, suffix);
    LowerAppend(prefix, goal);
    ContainsWithin(Lower(prefix), Lower(goal), Lower(suffix), HealthKeywords[i]);
    assert Contains(Lower(prefix + goal + suffix), HealthKeywords[i]);
  }

  /** Lower-casing a goal before the keyword test changes nothing: the test ignores case. */
  lemma HealthRelatedIgnoresCase(goal: string)
    ensures HealthRelated(goal) <==> HealthRelated(Lower(goal))
  {
    LowerIdempotent(goal);
  }

  /** Lower-casing twice is lower-casing once. */
  lemma LowerIdempotent(s: string)
    ensures Lower(Lower(s)) == Lower(s)
  {
  }

  /** The query sent to the routine generator. */
  function Query(goal: string): (q: string)
    ensures |q| == |goal| + 74
    ensures q[31..31 + |goal|] == goal
  {
    "generate me a 10 days plan for " + goal + " in md format without any extra description"
  }

  /** generate_routine; `generator` is the outcome of routine_generator for a query. */
  function GenerateRoutine(goal: Value, generator: string -> Result<string>): (r: Response<string>)
    ensures !Truthy(goal) ==> r == Err(400, "Goal is required")
    ensures Truthy(goal) && !goal.Str? ==> r == Err(500, "AttributeError")
    ensures goal.Str? && goal.text != "" && !HealthRelated(goal.text)
            ==> r == Err(400, "Only health-related topics are supported for routine generation.")
    ensures goal.Str? && goal.text != "" && HealthRelated(goal.text) ==>
      match generator(Query(goal.text))
      case Success(routine) => r == Ok(200, routine)
      case Failure(e) => r == Err(500, "An error occurred during routine generation: " + e)
  {
    if !Truthy(goal) then Err(400, "Goal is required")
    else if !goal.Str? then Err(500, "AttributeError")
    else if !HealthRelated(goal.text) then Err(400, "Only health-related topics are supported for routine generation.")
    else match generator(Query(goal.text))
      case Success(routine) => Ok(200, routine)
      case Failure(e) => Err(500, "An error occurred during routine generation: " + e)
  }
}
