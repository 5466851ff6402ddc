/** What allocating identifiers and merging a capture into a manifest amount to, told from the declared and
  * captured apps alone. */
module CaptureMerge {
  import opened ConfigPlan
  import opened Text
  import opened Spellings
  import opened CaptureIds

  // ----- identifiers -----

  lemma DriverNames(name: string)
    ensures EffectiveDriver(name) == if TrimSpace(name) == "" then "winget" else Lower(TrimSpace(name))
  {
  }

  /** The number a text of decimal digits stands for. */
  function Value(digits: string): nat {
    if digits == "" then 0
    else
      var last := digits[|digits| - 1];
      10 * Value(digits[..|digits| - 1]) + if '0' <= last <= '9' then (last - '0') as nat else 0
  }

  predicate IsDecimal(digits: string) {
    && digits != "" && (forall c :: c in digits ==> '0' <= c <= '9')
    && (digits[0] == '0' ==> |digits| == 1)
  }

  /** Numbers are written in decimal, without a leading zero. */
  lemma {:induction false} DecimalDenotes(n: nat)
    ensures IsDecimal(Decimal(n)) && Value(Decimal(n)) == n && (n > 0 ==> Decimal(n)[0] != '0')
  {
    if n >= 10 {
      DecimalDenotes(n / 10);
      var digits := Decimal(n);
      assert digits[..|digits| - 1] == Decimal(n / 10) && digits[|digits| - 1] == Digit(n % 10);
    } else {
      assert Decimal(n)[..0] == "";
    }
  }

  lemma CandidatesSpelled(asked: string, driver: string, k: nat)
    ensures var owned := Base(asked) + "-" + EffectiveDriver(driver);
      Candidate(asked, driver, k) == if k == 0 then owned else owned + "-" + Decimal(k + 1)
  {
    var owned := Base(asked) + "-" + EffectiveDriver(driver);
    if k == 0 {
      assert owned + "" == owned;
    } else {
      assert owned + ("-" + Decimal(k + 1)) == owned + "-" + Decimal(k + 1);
    }
  }

  predicate Free(id: string, used: set<string>) {
    Lower(id) !in used
  }

  /** The base is taken if it is free, then the base with its driver, then the first free one numbered from 2. */
  lemma AllocatedExactly(asked: string, driver: string, used: set<string>, id: string) returns (n: nat)
    requires Allocated(asked, driver, used, id)
    ensures var base := if TrimSpace(asked) == "" then "package" else TrimSpace(asked);
      var owned := base + "-" + EffectiveDriver(driver);
      if Free(base, used) then id == base
      else if Free(owned, used) then id == owned
      else
        && n >= 2 && id == owned + "-" + Decimal(n) && Free(id, used)
        && forall m: nat :: 2 <= m < n ==> !Free(owned + "-" + Decimal(m), used)
  {
    n := 0;
    var owned := Base(asked) + "-" + EffectiveDriver(driver);
    CandidatesSpelled(asked, driver, 0);
    if !Free(Base(asked), used) {
      var k: nat :| id == Candidate(asked, driver, k) && FirstFree(asked, driver, used, k);
      CandidatesSpelled(asked, driver, k);
      n := k + 1;
      forall m: nat | 2 <= m < n ensures !Free(owned + "-" + Decimal(m), used) {
        CandidatesSpelled(asked, driver, m - 1);
        assert !Free(Candidate(asked, driver, m - 1), used);
      }
      if !Free(owned, used) { assert k > 0; } else { NothingBeforeFree(asked, driver, used, k); }
    }
  }

  lemma NothingBeforeFree(asked: string, driver: string, used: set<string>, k: nat)
    requires FirstFree(asked, driver, used, k) && Free(Candidate(asked, driver, 0), used)
    ensures k == 0
  {
  }

  // ----- one app, twice -----

  /** Two coordinates name one package: the same driver and reference, letter case aside where the driver
    * does not tell it, and for winget the same source. */
  predicate SamePackage(a: Coordinates, b: Coordinates, resolve: Resolver) {
    var driver, left, right := EffectiveDriver(a.driver), TrimSpace(a.Ref()), TrimSpace(b.Ref());
    && driver == EffectiveDriver(b.driver)
    && (if driver == "winget" || driver == "chocolatey" then SameText(left, right) else left == right)
    && (driver == "winget" ==> resolve(Lower(left), a.source) == resolve(Lower(right), b.source))
  }

  lemma SameRefKey(a: Coordinates, b: Coordinates, resolve: Resolver)
    ensures RefKey(a, resolve) == RefKey(b, resolve) <==> SamePackage(a, b, resolve)
  {
    SameTextFolds(TrimSpace(a.Ref()), TrimSpace(b.Ref()));
  }

  predicate Complete(f: Option<Fingerprint>) {
    f.Some? && TrimSpace(f.value.key) != "" && TrimSpace(f.value.publisher) != ""
  }

  /** Two complete fingerprints with the same key and publisher, outer white space and letter case aside. */
  predicate SamePrint(f: Option<Fingerprint>, g: Option<Fingerprint>) {
    && Complete(f) && Complete(g) && SameText(TrimSpace(f.value.key), TrimSpace(g.value.key))
    && SameText(TrimSpace(f.value.publisher), TrimSpace(g.value.publisher))
  }

  predicate BarFree(f: Option<Fingerprint>) {
    Complete(f) ==> '|' !in f.value.key
  }

  lemma {:induction false} TrimKeeps(s: string, cut: char -> bool, c: char)
    requires c !in s
    ensures c !in TrimLeft(s, cut) && c !in TrimRight(s, cut)
    decreases |s|
  {
    if s != "" {
      TrimKeeps(s[1..], cut, c);
      TrimKeeps(s[..|s| - 1], cut, c);
    }
  }

  /** Fingerprints are told apart by both parts, as long as no key holds the bar that joins them. */
  lemma SameFingerprintKey(f: Option<Fingerprint>, g: Option<Fingerprint>)
    ensures FingerprintKey(f).Some? <==> Complete(f)
    ensures SamePrint(f, g) ==> FingerprintKey(f) == FingerprintKey(g)
    ensures Complete(f) && FingerprintKey(f) == FingerprintKey(g) && BarFree(f) && BarFree(g) ==> SamePrint(f, g)
  {
    if Complete(f) && Complete(g) {
      var fk, fp, gk, gp := TrimSpace(f.value.key), TrimSpace(f.value.publisher), TrimSpace(g.value.key),
        TrimSpace(g.value.publisher);
      SameTextFolds(fk, gk);
      SameTextFolds(fp, gp);
      if BarFree(f) && BarFree(g) && FingerprintKey(f) == FingerprintKey(g) {
        KeyBarFree(f.value.key);
        KeyBarFree(g.value.key);
        SplitsAtBar(Lower(fk), Lower(fp), Lower(gk), Lower(gp));
      }
    }
  }

  lemma KeyBarFree(key: string)
    requires '|' !in key
    ensures '|' !in Lower(TrimSpace(key))
  {
    TrimKeeps(key, IsSpace, '|');
    TrimKeeps(TrimLeft(key, IsSpace), IsSpace, '|');
    FoldLacks(TrimSpace(key), '|');
  }

  lemma SplitsAtBar(a: string, b: string, c: string, d: string)
    requires '|' !in a && '|' !in c && "arp:" + a + "|" + b == "arp:" + c + "|" + d
    ensures a == c && b == d
  {
    var left, right := a + ['|'] + b, c + ['|'] + d;
    assert ("arp:" + a + "|" + b)[4..] == left && ("arp:" + c + "|" + d)[4..] == right;
    SplitAppend(a, b, '|');
    SplitAppend(c, d, '|');
    assert left[|a|] == '|' && right[|c|] == '|';
    assert Split(left, '|')[0] == a && Split(right, '|')[0] == c;
    assert b == left[|a| + 1..] && d == right[|c| + 1..];
  }

  /** With a bar in a key two different installers get one identity. */
  lemma BarJoinsTwo()
    ensures var f, g := Some(Fingerprint("a|b", "c")), Some(Fingerprint("a", "b|c"));
      FingerprintKey(f) == FingerprintKey(g) && !SamePrint(f, g)
  {
    assert Lower("a|b") == "a|b" && Lower("b|c") == "b|c" && Lower("a") == "a" && Lower("c") == "c";
    TrimmedEnds("a|b");
    TrimmedEnds("b|c");
    TrimmedEnds("a");
    TrimmedEnds("c");
    assert "arp:" + "a|b" + "|" + "c" == "arp:a|b|c" == "arp:" + "a" + "|" + "b|c";
  }

  // ----- matching -----

  predicate AnswersTo(app: App, key: Key, resolve: Resolver) {
    || (app.at.Ref() != "" && RefKey(app.at, resolve) == key)
    || FingerprintKey(app.fingerprint) == Some(key)
  }

  /** The last captured app that answers to a key is the one detected. */
  lemma {:induction false} DetectsLast(captured: seq<App>, k: nat, key: Key, resolve: Resolver)
    requires k < |captured| && AnswersTo(captured[k], key, resolve)
    requires forall j :: k < j < |captured| ==> !AnswersTo(captured[j], key, resolve)
    ensures Detected(captured, key, resolve) == Some(captured[k])
    decreases |captured|
  {
    var n := |captured| - 1;
    if k < n { DetectsLast(captured[..n], k, key, resolve); }
  }

  lemma {:induction false} DetectsNone(captured: seq<App>, key: Key, resolve: Resolver)
    requires forall j :: 0 <= j < |captured| ==> !AnswersTo(captured[j], key, resolve)
    ensures Detected(captured, key, resolve) == None
  {
    if captured != [] { DetectsNone(captured[..|captured| - 1], key, resolve); }
  }

  /** The bearers of a fingerprint are counted, each once. */
  lemma BearersCount(a: seq<App>, app: App, key: Key)
    ensures CountFingerprint([], key) == 0
    ensures CountFingerprint(a + [app], key) ==
      CountFingerprint(a, key) + if FingerprintKey(app.fingerprint) == Some(key) then 1 else 0
  {
    assert (a + [app])[..|a|] == a;
  }

  /** A declaration is matched by its package, and only if nothing captured is that package, by a
    * fingerprint that one declaration and one captured app bear. */
  lemma MatchedExactly(app: App, existing: seq<App>, captured: seq<App>, resolve: Resolver)
    ensures var (found, byRef) := MatchOf(app, existing, captured, resolve);
      var same := Detected(captured, RefKey(app.at, resolve), resolve);
      && (byRef <==> same.Some?) && (byRef ==> found == same)
      && (!byRef && found.Some? ==> Unambiguous(app, existing, captured))
      && (!byRef && Unambiguous(app, existing, captured) ==>
           found == Detected(captured, FingerprintKey(app.fingerprint).value, resolve))
  {
  }

  predicate Unambiguous(app: App, existing: seq<App>, captured: seq<App>) {
    && Complete(app.fingerprint)
    && var key := FingerprintKey(app.fingerprint).value;
    CountFingerprint(existing, key) == 1 && CountFingerprint(captured, key) == 1
  }

  /** A captured app is the declared package exactly if it has a reference and both name one package. */
  lemma AnswersByPackage(app: App, declared: Coordinates, resolve: Resolver)
    ensures AnswersTo(app, RefKey(declared, resolve), resolve) <==>
      app.at.Ref() != "" && SamePackage(app.at, declared, resolve)
  {
    SameRefKey(app.at, declared, resolve);
  }

  // ----- what a merge writes -----

  /** Where a package comes from: its driver, or for winget its source. */
  predicate FromStore(at: Coordinates, resolve: Resolver) {
    if EffectiveDriver(at.driver) == "winget" then resolve(at.Ref(), at.source) == "msstore"
    else EffectiveDriver(at.driver) == "msstore"
  }

  /** A declaration that nothing captured stands for carries no evidence of an installation, and its version
    * is kept unless versions are pinned and it comes from the store. */
  lemma UnmatchedDeclaration(app: App, byRef: bool, pin: bool, resolve: Resolver)
    ensures Refreshed(app, None, byRef, pin, resolve) == App(app.id, app.at, app.fingerprint,
      if pin && FromStore(app.at, resolve) then "" else app.version, "", false, "")
  {
  }

  /** A matched one takes the evidence and the source of what was captured; its package only if the match was
    * by fingerprint; and the installed version only when versions are pinned, outside the store. */
  lemma MatchedDeclaration(app: App, f: App, byRef: bool, pin: bool, resolve: Resolver)
    ensures var m := Refreshed(app, Some(f), byRef, pin, resolve);
      && m.id == app.id && m.name == f.name && m.installed == f.installed && m.installedVersion == f.installedVersion
      && m.fingerprint == (if f.fingerprint.Some? then f.fingerprint else app.fingerprint)
      && m.at.source == f.at.source
      && (byRef || f.at.Ref() == "" ==> m.at.driver == app.at.driver && m.at.ref == app.at.ref)
      && (!byRef && f.at.Ref() != "" ==> m.at.driver == f.at.driver && m.at.ref == f.at.ref)
      && (!pin ==> m.version == app.version)
      && (pin && f.installedVersion != "" && !FromStore(m.at, resolve) ==> m.version == f.installedVersion)
      && (pin && (f.installedVersion == "" || FromStore(m.at, resolve)) ==>
           m.version == if FromStore(app.at, resolve) then "" else app.version)
  {
  }

  /** A captured app is appended unless a declaration has its package or its fingerprint. */
  ghost predicate Declared(app: App, existing: seq<App>, resolve: Resolver) {
    exists k :: 0 <= k < |existing| &&
      ((existing[k].at.ref.Some? && RefKey(existing[k].at, resolve) == RefKey(app.at, resolve)) ||
       (Complete(app.fingerprint) && FingerprintKey(existing[k].fingerprint) == FingerprintKey(app.fingerprint)))
  }

  lemma NewExactly(app: App, existing: seq<App>, resolve: Resolver)
    ensures IsNew(app, existing, resolve) <==> !Declared(app, existing, resolve)
  {
    var byRef, key := RefKey(app.at, resolve), FingerprintKey(app.fingerprint);
    forall k | 0 <= k < |existing|
      ensures byRef in OwnKeys(existing[k], resolve) <==>
        existing[k].at.ref.Some? && RefKey(existing[k].at, resolve) == byRef
      ensures key.Some? ==>
        (key.value in OwnKeys(existing[k], resolve) <==> FingerprintKey(existing[k].fingerprint) == key)
    {
    }
  }

  /** They are appended in the order they were captured. */
  lemma NewOnesNext(a: seq<App>, app: App, existing: seq<App>, resolve: Resolver)
    ensures NewOnes([], existing, resolve) == []
    ensures NewOnes(a + [app], existing, resolve) ==
      NewOnes(a, existing, resolve) + if Declared(app, existing, resolve) then [] else [app]
  {
    NewExactly(app, existing, resolve);
    assert (a + [app])[..|a|] == a;
  }

  /** The identifiers to avoid are the declared ones, outer white space and letter case aside. */
  lemma TakenExactly(existing: seq<App>, id: string)
    ensures Lower(id) in TakenIDs(existing) <==>
      exists k :: 0 <= k < |existing| && SameText(TrimSpace(existing[k].id), id)
  {
    forall k | 0 <= k < |existing|
      ensures SameText(TrimSpace(existing[k].id), id) <==> Lower(TrimSpace(existing[k].id)) == Lower(id)
    {
      SameTextFolds(TrimSpace(existing[k].id), id);
    }
  }
}
