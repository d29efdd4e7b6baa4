/** When two plans share a dedupe key, told by the code units of their texts. */
module TaskKeyRules {
  import opened Prelude
  import opened CodeUnits
  import opened StableJson
  import opened TaskKey

  // ---- trimming ----

  /** Tabs, line ends and spaces, with the no-break space, the typographic spaces and the byte order mark. */
  predicate IsSpace(u: Unit) {
    || u in {0x9, 0xA, 0xB, 0xC, 0xD, 0x20, 0xA0, 0x1680, 0x2028, 0x2029, 0x202F, 0x205F, 0x3000, 0xFEFF}
    || u in {0x2000, 0x2001, 0x2002, 0x2003, 0x2004, 0x2005, 0x2006, 0x2007, 0x2008, 0x2009, 0x200A}
  }

  predicate IsBlank(s: Text) { forall u <- s :: IsSpace(u) }

  /** `t` is what is left of `s` between blanks, and has none at its ends. */
  ghost predicate IsCoreOf(s: Text, t: Text) {
    && (exists before, after :: s == before + t + after && IsBlank(before) && IsBlank(after))
    && (t != [] ==> !IsSpace(t[0]) && !IsSpace(t[|t| - 1]))
  }

  lemma SpacesAreWhite(s: Text)
    ensures IsBlank(s) <==> AllWhite(s)
    ensures s != [] ==> (IsSpace(s[0]) <==> IsWhite(s[0])) && (IsSpace(s[|s| - 1]) <==> IsWhite(s[|s| - 1]))
  {
  }

  predicate AllWhite(s: Text) { forall u <- s :: IsWhite(u) }

  lemma {:induction false} StartIsCut(s: Text) returns (before: Text)
    ensures s == before + TrimStart(s) && AllWhite(before)
    ensures TrimStart(s) != [] ==> !IsWhite(TrimStart(s)[0])
    decreases |s|
  {
    before := [];
    if s != [] && IsWhite(s[0]) {
      var rest := StartIsCut(s[1..]);
      before := [s[0]] + rest;
      assert s == [s[0]] + s[1..];
    }
  }

  lemma {:induction false} EndIsCut(s: Text) returns (after: Text)
    ensures s == TrimEnd(s) + after && AllWhite(after)
    ensures TrimEnd(s) != [] ==> !IsWhite(TrimEnd(s)[|TrimEnd(s)| - 1]) && TrimEnd(s)[0] == s[0]
    decreases |s|
  {
    after := [];
    if s != [] && IsWhite(s[|s| - 1]) {
      var rest := EndIsCut(s[..|s| - 1]);
      after := rest + [s[|s| - 1]];
      assert s == s[..|s| - 1] + [s[|s| - 1]];
    }
  }

  lemma EndsAreNoSpaces(t: Text)
    requires t != [] ==> !IsWhite(t[0]) && !IsWhite(t[|t| - 1])
    ensures t != [] ==> !IsSpace(t[0]) && !IsSpace(t[|t| - 1])
  {
    SpacesAreWhite(t);
  }

  lemma TrimIsCore(s: Text)
    ensures IsCoreOf(s, Trim(s))
  {
    var before := StartIsCut(s);
    var after := EndIsCut(TrimStart(s));
    SpacesAreWhite(before);
    SpacesAreWhite(after);
    assert s == before + Trim(s) + after;
    EndsAreNoSpaces(Trim(s));
  }

  lemma CoreIsUnique(s: Text, t: Text, u: Text)
    requires IsCoreOf(s, t) && IsCoreOf(s, u)
    ensures t == u
  {
    var a, b :| s == a + t + b && IsBlank(a) && IsBlank(b);
    var c, d :| s == c + u + d && IsBlank(c) && IsBlank(d);
    CoreIsWithin(s, a, t, b, c, u, d);
    CoreIsWithin(s, c, u, d, a, t, b);
    if t != [] && u != [] {
      assert t == s[|a|..|a| + |t|] && u == s[|c|..|c| + |u|];
    }
  }

  /** No core begins or ends inside a blank that encloses another. */
  lemma CoreIsWithin(s: Text, a: Text, t: Text, b: Text, c: Text, u: Text, d: Text)
    requires s == a + t + b && s == c + u + d && IsBlank(c) && IsBlank(d)
    requires t != [] ==> !IsSpace(t[0]) && !IsSpace(t[|t| - 1])
    ensures t != [] ==> u != [] && |c| <= |a| && |a| + |t| <= |c| + |u|
  {
    if t != [] {
      assert s[|a|] == t[0] && s[|a| + |t| - 1] == t[|t| - 1];
      assert forall i :: 0 <= i < |c| ==> s[i] == c[i] && c[i] in c;
      assert forall i :: |c| + |u| <= i < |s| ==> s[i] == d[i - |c| - |u|] && d[i - |c| - |u|] in d;
    }
  }

  lemma TrimExactly(s: Text, t: Text)
    ensures Trim(s) == t <==> IsCoreOf(s, t)
  {
    TrimIsCore(s);
    if IsCoreOf(s, t) {
      CoreIsUnique(s, t, Trim(s));
    }
  }

  // ---- the parts of a key ----

  /** A missing text counts as an empty one. */
  ghost predicate SameCore(a: Option<Text>, b: Option<Text>) {
    exists t :: IsCore(a, t) && IsCore(b, t)
  }

  ghost predicate IsCore(a: Option<Text>, t: Text) {
    match a
    case None => t == []
    case Some(s) => IsCoreOf(s, t)
  }

  lemma CleanTextExactly(a: Option<Text>, t: Text)
    ensures CleanText(a) == t <==> IsCore(a, t)
  {
    if a.Some? {
      TrimExactly(a.value, t);
    }
  }

  lemma SameCoreExactly(a: Option<Text>, b: Option<Text>)
    ensures CleanText(a) == CleanText(b) <==> SameCore(a, b)
  {
    CleanTextExactly(a, CleanText(a));
    CleanTextExactly(b, CleanText(a));
    if t :| IsCore(a, t) && IsCore(b, t) {
      CleanTextExactly(a, t);
      CleanTextExactly(b, t);
    }
  }

  /** A page that is no number counts as page zero; a missing page equals none but a missing one. */
  predicate SamePage(a: Page, b: Page) {
    match (a, b)
    case (NoPage, NoPage) => true
    case (NotANumber, NotANumber) => true
    case (NotANumber, PageNumber(t)) => t == [48]
    case (PageNumber(t), NotANumber) => t == [48]
    case (PageNumber(t), PageNumber(u)) => t == u
    case _ => false
  }

  /** A missing payload is an empty object; equality is up to the order of keys at every depth. */
  ghost predicate SamePayload(a: Option<seq<Field>>, b: Option<seq<Field>>) {
    Same(match a case None => Obj([]) case Some(fields) => Obj(fields),
         match b case None => Obj([]) case Some(fields) => Obj(fields))
  }

  lemma SamePageExactly(a: Page, b: Page)
    ensures PageKey(a) == PageKey(b) <==> SamePage(a, b)
  {
  }

  lemma SamePayloadExactly(p: TaskPlan, q: TaskPlan)
    ensures Same(Payload(p), Payload(q)) <==> SamePayload(p.payload, q.payload)
  {
  }

  /** Two plans share a key exactly when their trimmed texts, their pages and their payloads agree. */
  lemma {:induction false} KeysAgreeExactlyWhen(p: TaskPlan, q: TaskPlan)
    requires Valid(Payload(p)) && Valid(Payload(q))
    requires DedupeKey(p).Success? && DedupeKey(q).Success?
    ensures DedupeKey(p) == DedupeKey(q) <==>
            && SameCore(Some(p.taskType), Some(q.taskType)) && SameCore(p.phase, q.phase)
            && SameCore(p.cursor, q.cursor) && SamePage(p.page, q.page) && SamePayload(p.payload, q.payload)
  {
    SameKeyExactlyWhen(p, q);
    SameCoreExactly(Some(p.taskType), Some(q.taskType));
    SameCoreExactly(p.phase, q.phase);
    SameCoreExactly(p.cursor, q.cursor);
    SamePageExactly(p.page, q.page);
    SamePayloadExactly(p, q);
  }

  // ---- when there is no key ----

  /** A high surrogate without a low one behind it, or a low one without a high one before it. */
  predicate LoneAt(s: Text, i: nat)
    requires i < |s|
  {
    || (0xD800 <= s[i] <= 0xDBFF && !(i + 1 < |s| && 0xDC00 <= s[i + 1] <= 0xDFFF))
    || (0xDC00 <= s[i] <= 0xDFFF && !(i > 0 && 0xD800 <= s[i - 1] <= 0xDBFF))
  }

  ghost predicate HoldsLone(s: Text) { exists i: nat :: i < |s| && LoneAt(s, i) }

  lemma HoldsLoneExactly(s: Text)
    ensures WellFormed(s) <==> !HoldsLone(s)
  {
    forall i: nat | i < |s| ensures PairedAt(s, i) <==> !LoneAt(s, i) {
    }
  }

  /** There is no key exactly when what is left of the type, the phase or the cursor holds half of a pair alone. */
  lemma KeyIsMissingExactlyWhen(plan: TaskPlan, taskType: Text, phase: Text, cursor: Text)
    requires IsCoreOf(plan.taskType, taskType) && IsCore(plan.phase, phase) && IsCore(plan.cursor, cursor)
    ensures DedupeKey(plan).Failure? <==>
            HoldsLone(taskType) || HoldsLone(phase) || HoldsLone(cursor)
  {
    TrimExactly(plan.taskType, taskType);
    CleanTextExactly(plan.phase, phase);
    CleanTextExactly(plan.cursor, cursor);
    TrimmedKeyIsMissing(plan);
  }

  lemma TrimmedKeyIsMissing(plan: TaskPlan)
    ensures DedupeKey(plan).Failure? <==>
            HoldsLone(Trim(plan.taskType)) || HoldsLone(CleanText(plan.phase)) || HoldsLone(CleanText(plan.cursor))
  {
    HoldsLoneExactly(Trim(plan.taskType));
    HoldsLoneExactly(CleanText(plan.phase));
    HoldsLoneExactly(CleanText(plan.cursor));
    KeyRefusedExactlyWhen(plan);
  }
}
