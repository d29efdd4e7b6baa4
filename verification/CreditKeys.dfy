/**
 * The texts by which stored and calculated credits are compared: twenty-three parts joined by bars. They tell credits
 * apart as their fields do when no part but the last holds a bar; source, medium and campaign are free text.
 */
module CreditKeys {
  import opened Prelude
  import opened CodeUnits
  import opened Attribution
  import opened CreditStore
  import opened CreditStoreLaws

  // ---- joining by bars ----

  function Join(parts: seq<string>): string
    requires parts != []
  {
    if |parts| == 1 then parts[0] else Join(parts[..|parts| - 1]) + "|" + parts[|parts| - 1]
  }

  predicate BarFree(parts: seq<string>) { forall i :: 0 <= i < |parts| ==> NoBar(parts[i]) }

  function Bars(s: string): nat { if s == "" then 0 else Bars(s[..|s| - 1]) + if s[|s| - 1] == '|' then 1 else 0 }

  lemma {:induction false} BarsConcat(s: string, t: string)
    ensures Bars(s + t) == Bars(s) + Bars(t)
    decreases |t|
  {
    if t == "" {
      assert s + t == s;
    } else {
      assert (s + t)[..|s + t| - 1] == s + t[..|t| - 1];
      BarsConcat(s, t[..|t| - 1]);
    }
  }

  lemma {:induction false} NoBarsExactlyWhen(s: string)
    ensures Bars(s) == 0 <==> NoBar(s)
    decreases |s|
  {
    if s != "" {
      var front, last := s[..|s| - 1], s[|s| - 1];
      assert s == front + [last];
      NoBarsExactlyWhen(front);
    }
  }

  lemma BarsOfJoin(front: string, last: string)
    ensures Bars(front + "|" + last) == Bars(front) + 1 + Bars(last)
  {
    BarsConcat(front + "|", last);
    BarsConcat(front, "|");
    assert "|"[..0] == "" && Bars("|") == 1;
  }

  /** A joined text holds at least the bars between its parts, and no other exactly when the parts have none. */
  lemma {:induction false} JoinBars(parts: seq<string>)
    requires parts != []
    ensures Bars(Join(parts)) >= |parts| - 1
    ensures Bars(Join(parts)) == |parts| - 1 <==> BarFree(parts)
    decreases |parts|
  {
    var front, last := parts[..|parts| - 1], parts[|parts| - 1];
    NoBarsExactlyWhen(last);
    if front != [] {
      JoinBars(front);
      BarsOfJoin(Join(front), last);
      assert BarFree(parts) <==> BarFree(front) && NoBar(last);
    }
  }

  lemma {:induction false} BarFreeJoins(parts: seq<string>, others: seq<string>)
    requires parts != [] && |others| == |parts| && BarFree(parts) && BarFree(others) && Join(parts) == Join(others)
    ensures parts == others
    decreases |parts|
  {
    var front, last := parts[..|parts| - 1], parts[|parts| - 1];
    var front', last' := others[..|others| - 1], others[|others| - 1];
    assert parts == front + [last] && others == front' + [last'];
    if front != [] {
      LastBar(Join(front), Join(front'), last, last');
      BarFreeJoins(front, front');
    }
  }

  // ---- a second reading ----

  /** The same text, with a bar of part `i` taken for the one between two parts. */
  function Moved(parts: seq<string>, i: nat, k: nat): seq<string>
    requires |parts| >= 2 && i < |parts| && k < |parts[i]|
  {
    var before, after := parts[i][..k], parts[i][k + 1..];
    if i < |parts| - 1 then parts[i := before][i + 1 := after + "|" + parts[i + 1]]
    else parts[i - 1 := parts[i - 1] + "|" + before][i := after]
  }

  lemma {:induction false} JoinAgrees(parts: seq<string>, others: seq<string>, n: nat)
    requires 1 <= n <= |parts| == |others| && Join(parts[..n]) == Join(others[..n]) && parts[n..] == others[n..]
    ensures Join(parts) == Join(others)
    decreases |parts| - n
  {
    if n < |parts| {
      assert parts[n] == parts[n..][0] && others[n] == others[n..][0];
      assert parts[..n + 1][..n] == parts[..n] && others[..n + 1][..n] == others[..n];
      assert parts[n + 1..] == parts[n..][1..] && others[n + 1..] == others[n..][1..];
      JoinAgrees(parts, others, n + 1);
    } else {
      assert parts[..n] == parts && others[..n] == others;
    }
  }

  lemma {:induction false} JoinTwo(parts: seq<string>, n: nat)
    requires 2 <= n <= |parts|
    ensures Join(parts[..n])
            == (if n == 2 then "" else Join(parts[..n - 2]) + "|") + (parts[n - 2] + "|" + parts[n - 1])
  {
    assert parts[..n][..n - 1] == parts[..n - 1] && parts[..n - 1][..n - 2] == parts[..n - 2];
    if n == 2 {
      assert Join(parts[..1]) == parts[0];
      assert "" + (parts[0] + "|" + parts[1]) == parts[0] + "|" + parts[1];
    } else {
      var a, b, c := Join(parts[..n - 2]) + "|", parts[n - 2], "|" + parts[n - 1];
      assert (a + b) + "|" + parts[n - 1] == a + (b + "|" + parts[n - 1]);
    }
  }

  lemma {:induction false} MovedJoins(parts: seq<string>, i: nat, k: nat)
    requires |parts| >= 2 && i < |parts| && k < |parts[i]| && parts[i][k] == '|'
    ensures Join(Moved(parts, i, k)) == Join(parts) && Moved(parts, i, k) != parts
  {
    var moved := Moved(parts, i, k);
    var n := if i < |parts| - 1 then i + 2 else i + 1;
    var before, after := parts[i][..k], parts[i][k + 1..];
    assert parts[i] == before + "|" + after;
    assert moved[n - 2] + "|" + moved[n - 1] == parts[n - 2] + "|" + parts[n - 1];
    assert moved[..n - 2] == parts[..n - 2] && moved[n..] == parts[n..];
    JoinTwo(parts, n);
    JoinTwo(moved, n);
    JoinAgrees(parts, moved, n);
    assert |moved[i]| < |parts[i]|;
  }

  /** Two or more parts are the only ones of their number with their joined text exactly when no part holds a bar. */
  lemma {:induction false} JoinIsReadExactlyWhen(parts: seq<string>)
    requires |parts| >= 2
    ensures (forall others: seq<string> :: |others| == |parts| && Join(others) == Join(parts) ==> others == parts)
            <==> BarFree(parts)
  {
    if BarFree(parts) {
      forall others: seq<string> | |others| == |parts| && Join(others) == Join(parts) ensures others == parts {
        JoinBars(parts);
        JoinBars(others);
        BarFreeJoins(parts, others);
      }
    } else {
      var i :| 0 <= i < |parts| && !NoBar(parts[i]);
      var k :| 0 <= k < |parts[i]| && parts[i][k] == '|';
      MovedJoins(parts, i, k);
    }
  }

  // ---- the key of a credit ----

  /** How times, amounts and metadata are written. */
  datatype Texts = Texts(iso: int -> string, number: Text -> string, json: Metadata -> string)

  /** Different times, amounts and metadata are written differently, and no amount is written as the empty text. */
  ghost predicate Readable(texts: Texts) {
    && (forall a: int, b: int :: texts.iso(a) == texts.iso(b) ==> a == b)
    && (forall a, b :: texts.number(a) == texts.number(b) ==> a == b)
    && (forall a, b :: texts.json(a) == texts.json(b) ==> a == b)
    && (forall t: int :: texts.iso(t) != "") && (forall a :: texts.number(a) != "")
  }

  function OrElse(s: Option<string>, other: string): string { if s.None? || s.value == "" then other else s.value }

  function TimeText(texts: Texts, t: Option<int>): string { if t.None? then "" else texts.iso(t.value) }

  function NumberPart(texts: Texts, a: Option<Text>): string { if a.None? then "" else texts.number(a.value) }

  function StatusText(attributed: bool): string { if attributed then "attributed" else "unattributed" }

  function KeyParts(texts: Texts, c: Credit): seq<string> {
    [c.workspaceId, c.journeyId, c.personId, c.conversionId, texts.iso(c.conversionTime), ModelText(c.model),
     c.modelVersion, c.eligibilityVersion, OrElse(c.touchpointId, "unattributed"), TimeText(texts, c.touchpointTime),
     StatusText(c.attributed), if c.attributed then "" else "no_eligible_touchpoint",
     if c.attributed then "1.000000" else "0.000000", if c.attributed then "100.0000" else "0.0000",
     NumberPart(texts, c.amount), c.currency, OrElse(c.channel, ""),
     c.source, c.medium, c.campaignId, c.affiliateId, c.offerId, texts.json(c.metadata)]
  }

  function JoinedCreditKey(texts: Texts, c: Credit): string { Join(KeyParts(texts, c)) }

  /** Missing values are missing, not empty, and no touchpoint is named like a missing one. */
  predicate Proper(c: Credit) {
    c.touchpointId != Some("") && c.touchpointId != Some("unattributed") && c.channel != Some("")
  }

  lemma SomeOrElse(a: Option<string>, b: Option<string>, other: string)
    requires a != Some("") && b != Some("") && a != Some(other) && b != Some(other)
    ensures OrElse(a, other) == OrElse(b, other) <==> a == b
  {
  }

  lemma TimesDiffer(texts: Texts, a: int, b: int)
    requires Readable(texts)
    ensures texts.iso(a) != "" && (texts.iso(a) == texts.iso(b) <==> a == b)
  {
  }

  lemma SameTimeText(texts: Texts, a: Option<int>, b: Option<int>)
    requires Readable(texts)
    ensures TimeText(texts, a) == TimeText(texts, b) <==> a == b
  {
    if a.Some? {
      TimesDiffer(texts, a.value, if b.Some? then b.value else 0);
    }
    if b.Some? {
      TimesDiffer(texts, b.value, 0);
    }
  }

  lemma SameNumberText(texts: Texts, a: Option<Text>, b: Option<Text>)
    requires Readable(texts)
    ensures NumberPart(texts, a) == NumberPart(texts, b) <==> a == b
  {
  }

  lemma SameModelText(a: Model, b: Model)
    ensures ModelText(a) == ModelText(b) <==> a == b
  {
    assert ModelText(a)[0] == ModelText(b)[0] ==> a == b;
  }

  lemma SameStatus(a: bool, b: bool)
    ensures StatusText(a) == StatusText(b) <==> a == b
  {
    assert StatusText(a)[0] == StatusText(b)[0] ==> a == b;
  }

  /** Readable parts tell proper credits apart as their fields do. */
  lemma {:induction false} PartsAreFields(texts: Texts, c: Credit, d: Credit)
    requires Readable(texts) && Proper(c) && Proper(d)
    ensures KeyParts(texts, c) == KeyParts(texts, d) <==> CreditKey(c) == CreditKey(d)
  {
    SomeOrElse(c.touchpointId, d.touchpointId, "unattributed");
    SomeOrElse(c.channel, d.channel, "");
    SameTimeText(texts, c.touchpointTime, d.touchpointTime);
    SameNumberText(texts, c.amount, d.amount);
    SameModelText(c.model, d.model);
    SameStatus(c.attributed, d.attributed);
    if KeyParts(texts, c) == KeyParts(texts, d) {
      EqualParts(texts, c, d);
    }
  }

  lemma {:induction false} EqualParts(texts: Texts, c: Credit, d: Credit)
    requires KeyParts(texts, c) == KeyParts(texts, d)
    ensures c.workspaceId == d.workspaceId && c.journeyId == d.journeyId && c.personId == d.personId
    ensures c.conversionId == d.conversionId && texts.iso(c.conversionTime) == texts.iso(d.conversionTime)
    ensures ModelText(c.model) == ModelText(d.model) && c.modelVersion == d.modelVersion
    ensures c.eligibilityVersion == d.eligibilityVersion
    ensures OrElse(c.touchpointId, "unattributed") == OrElse(d.touchpointId, "unattributed")
    ensures TimeText(texts, c.touchpointTime) == TimeText(texts, d.touchpointTime)
    ensures StatusText(c.attributed) == StatusText(d.attributed)
    ensures NumberPart(texts, c.amount) == NumberPart(texts, d.amount) && c.currency == d.currency
    ensures OrElse(c.channel, "") == OrElse(d.channel, "") && c.source == d.source && c.medium == d.medium
    ensures c.campaignId == d.campaignId && c.affiliateId == d.affiliateId && c.offerId == d.offerId
    ensures texts.json(c.metadata) == texts.json(d.metadata)
  {
    var p, q := KeyParts(texts, c), KeyParts(texts, d);
    assert p[0] == q[0] && p[1] == q[1] && p[2] == q[2] && p[3] == q[3] && p[4] == q[4] && p[5] == q[5] && p[6] == q[6];
    assert p[7] == q[7] && p[8] == q[8] && p[9] == q[9] && p[10] == q[10] && p[14] == q[14] && p[15] == q[15];
    assert p[16] == q[16] && p[17] == q[17] && p[18] == q[18] && p[19] == q[19] && p[20] == q[20] && p[21] == q[21];
    assert p[22] == q[22];
  }

  /** The comparison as it is made, on joined texts. */
  ghost predicate JoinedEquivalent(texts: Texts, existing: seq<Credit>, incoming: seq<Credit>) {
    && |existing| == |incoming|
    && forall c <- incoming :: exists e :: e in existing && JoinedCreditKey(texts, e) == JoinedCreditKey(texts, c)
  }

  ghost predicate Plain(texts: Texts, credits: seq<Credit>) {
    forall c <- credits :: Proper(c) && BarFree(KeyParts(texts, c))
  }

  lemma {:induction false} JoinedKeysAgree(texts: Texts, c: Credit, d: Credit)
    requires Readable(texts) && Proper(c) && Proper(d) && BarFree(KeyParts(texts, c))
    ensures JoinedCreditKey(texts, c) == JoinedCreditKey(texts, d) <==> CreditKey(c) == CreditKey(d)
  {
    JoinIsReadExactlyWhen(KeyParts(texts, c));
    PartsAreFields(texts, c, d);
  }

  /** For credits without bars the comparison of joined texts is the comparison of the fields. */
  lemma {:induction false} JoinedEquivalentExactlyWhen(texts: Texts, existing: seq<Credit>, incoming: seq<Credit>)
    requires Readable(texts) && Plain(texts, incoming) && forall e <- existing :: Proper(e)
    ensures JoinedEquivalent(texts, existing, incoming) <==> Equivalent(existing, incoming)
  {
    forall c, e | c in incoming && e in existing
      ensures JoinedCreditKey(texts, e) == JoinedCreditKey(texts, c) <==> CreditKey(e) == CreditKey(c) {
      JoinedKeysAgree(texts, c, e);
    }
  }

  /** A bar in the source: the stored credit has another source and medium, and passes for the one calculated. */
  lemma {:induction false} BarInSourcePasses(texts: Texts, c: Credit, a: string, b: string, d: string)
    ensures var stored, incoming := c.(source := a, medium := b + "|" + d), c.(source := a + "|" + b, medium := d);
            JoinedEquivalent(texts, [stored], [incoming]) && !Equivalent([stored], [incoming])
  {
    var stored, incoming := c.(source := a, medium := b + "|" + d), c.(source := a + "|" + b, medium := d);
    var p, q := KeyParts(texts, incoming), KeyParts(texts, stored);
    assert p[17][|a|] == '|' && p[17][..|a|] == a && p[17][|a| + 1..] == b;
    assert Moved(p, 17, |a|) == q;
    MovedJoins(p, 17, |a|);
    assert stored in [stored];
    assert |stored.source| < |incoming.source|;
    assert CreditKey(stored).source != CreditKey(incoming).source;
  }
}
