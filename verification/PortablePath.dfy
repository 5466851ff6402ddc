/** Slash-separated paths: lexical cleaning, and the portable relative paths a bundle may contain. */
module PortablePath {
  import opened ConfigPlan
  import opened Text
  import opened Spellings

  /** One component, resolved onto the components kept so far. */
  function Step(p: string, rooted: bool, kept: seq<string>): seq<string> {
    if p == "" || p == "." then kept
    else if p != ".." then kept + [p]
    else if kept != [] && kept[|kept| - 1] != ".." then kept[..|kept| - 1]
    else if rooted then kept
    else kept + [p]
  }

  /** Components are resolved left to right. */
  function Fold(parts: seq<string>, rooted: bool, kept: seq<string>): seq<string> {
    if parts == [] then kept else Fold(parts[1..], rooted, Step(parts[0], rooted, kept))
  }

  predicate Rooted(path: string) {
    path != "" && path[0] == '/'
  }

  function Resolved(path: string): seq<string> {
    Fold(Split(path, '/'), Rooted(path), [])
  }

  /** The shortest path naming the same place. */
  function Clean(path: string): string {
    if Rooted(path) then "/" + Join(Resolved(path), '/')
    else if Resolved(path) == [] then "."
    else Join(Resolved(path), '/')
  }

  predicate Plain(part: string) {
    part != "" && part != "." && part != ".." && '/' !in part
  }

  /** Components a cleaned path can have: plain ones after at most a run of parents. */
  predicate Normal(parts: seq<string>, rooted: bool) {
    && (forall k :: 0 <= k < |parts| ==> parts[k] != "" && parts[k] != "." && '/' !in parts[k])
    && (forall k :: 0 <= k < |parts| && parts[k] == ".." ==> !rooted)
    && (forall j, k :: 0 <= j < k < |parts| && parts[k] == ".." ==> parts[j] == "..")
  }

  lemma {:induction false} FoldNormal(parts: seq<string>, rooted: bool, kept: seq<string>)
    requires Normal(kept, rooted) && forall k :: 0 <= k < |parts| ==> '/' !in parts[k]
    ensures Normal(Fold(parts, rooted, kept), rooted)
  {
    if parts != [] {
      FoldNormal(parts[1..], rooted, Step(parts[0], rooted, kept));
    }
  }

  /** A normal component list is already folded. */
  lemma {:induction false} FoldIsIdentity(parts: seq<string>, rooted: bool, kept: seq<string>)
    requires Normal(kept + parts, rooted)
    ensures Fold(parts, rooted, kept) == kept + parts
  {
    if parts == [] {
      assert kept + parts == kept;
    } else {
      assert (kept + parts)[|kept|] == parts[0];
      assert kept + [parts[0]] + parts[1..] == kept + parts;
      if parts[0] == ".." && kept != [] { assert (kept + parts)[|kept| - 1] == ".."; }
      FoldIsIdentity(parts[1..], rooted, kept + [parts[0]]);
    }
  }

  lemma JoinStarts(parts: seq<string>)
    requires parts != [] && parts[0] != ""
    ensures Join(parts, '/') != "" && Join(parts, '/')[0] == parts[0][0]
  {
  }

  /** Cleaning keeps the root and the components, in normal form. */
  lemma CleanResolves(path: string)
    ensures Normal(Resolved(path), Rooted(path))
    ensures Rooted(Clean(path)) == Rooted(path)
    ensures Resolved(Clean(path)) == Resolved(path)
  {
    FoldNormal(Split(path, '/'), Rooted(path), []);
    var parts := Resolved(path);
    if parts == [] {
      SplitOne(".", '/');
      assert Split("/", '/') == ["", ""];
      assert ["", ""][1..] == [""] && [""][1..] == [] && ["."][1..] == [];
      assert Fold([""], true, []) == [] && Resolved("/") == [] && Resolved(".") == [];
      assert Clean(path) == if Rooted(path) then "/" else ".";
    } else {
      JoinStarts(parts);
      SplitJoin(parts, '/');
      assert [] + parts == parts;
      FoldIsIdentity(parts, Rooted(path), []);
      if Rooted(path) {
        SplitAppend("", Join(parts, '/'), '/');
        assert "" + ['/'] + Join(parts, '/') == Clean(path);
        assert ([""] + parts)[1..] == parts;
      }
    }
  }

  /** Cleaning is idempotent. */
  lemma CleanIdempotent(path: string)
    ensures Clean(Clean(path)) == Clean(path)
  {
    CleanResolves(path);
  }

  // ----- portable paths -----

  predicate HasVolume(value: string) {
    |value| >= 2 && ('A' <= value[0] <= 'Z' || 'a' <= value[0] <= 'z') && value[1] == ':'
  }

  predicate BadComponent(part: string) {
    part == ".." || exists k :: 0 <= k < |part| && part[k] < ' '
  }

  function NormalizePortable(value: string): Option<string> {
    if value == "" || TrimSpace(value) != value || '\0' in value then None
    else
      var slashed := ReplaceChar(value, '\\', '/');
      if Rooted(slashed) || HasVolume(slashed) then None
      else if slashed[0] == '~' || '$' in slashed || '%' in slashed || ':' in slashed then None
      else if exists k :: 0 <= k < |Split(slashed, '/')| && BadComponent(Split(slashed, '/')[k]) then None
      else
        var cleaned := Clean(slashed);
        if cleaned == "." || cleaned == "" || cleaned == ".." || "../" <= cleaned then None else Some(cleaned)
  }

  /** A plain component free of the characters the portable form excludes. */
  predicate PortablePart(part: string) {
    && Plain(part) && '\\' !in part && '$' !in part && '%' !in part && ':' !in part
    && forall k :: 0 <= k < |part| ==> part[k] >= ' '
  }

  predicate AllPortable(parts: seq<string>) {
    forall k :: 0 <= k < |parts| ==> PortablePart(parts[k])
  }

  lemma {:induction false} SplitMembers(s: string, sep: char, c: char)
    requires c !in s
    ensures forall k :: 0 <= k < |Split(s, sep)| ==> c !in Split(s, sep)[k]
  {
    if s != "" { SplitMembers(s[1..], sep, c); }
  }

  /** Folding a list without parents keeps exactly the components that are not empty or ".". */
  lemma {:induction false} FoldKeepsPortable(parts: seq<string>, kept: seq<string>)
    requires AllPortable(kept)
    requires forall k :: 0 <= k < |parts| ==> parts[k] == "" || parts[k] == "." || PortablePart(parts[k])
    ensures AllPortable(Fold(parts, false, kept))
  {
    if parts != [] {
      FoldKeepsPortable(parts[1..], if parts[0] == "" || parts[0] == "." then kept else kept + [parts[0]]);
    }
  }

  /** Every accepted path is a non-empty list of portable components, joined. */
  lemma AcceptedIsPortable(value: string)
    requires NormalizePortable(value).Some?
    ensures var p := NormalizePortable(value).value;
      AllPortable(Split(p, '/')) && p == Join(Split(p, '/'), '/') && p != ""
  {
    var slashed := ReplaceChar(value, '\\', '/');
    var raw := Split(slashed, '/');
    assert forall i :: 0 <= i < |slashed| ==> slashed[i] != '\\';
    SplitMembers(slashed, '/', '\\');
    SplitMembers(slashed, '/', '$');
    SplitMembers(slashed, '/', '%');
    SplitMembers(slashed, '/', ':');
    forall k | 0 <= k < |raw| ensures raw[k] == "" || raw[k] == "." || PortablePart(raw[k]) {
      assert !BadComponent(raw[k]);
    }
    FoldKeepsPortable(raw, []);
    SplitJoin(Resolved(slashed), '/');
  }

  predicate PortableText(text: string) {
    '\\' !in text && '$' !in text && '%' !in text && ':' !in text && '\0' !in text
  }

  lemma PortableJoined(parts: seq<string>)
    requires parts != [] && AllPortable(parts)
    ensures PortableText(Join(parts, '/')) && Split(Join(parts, '/'), '/') == parts
    ensures Join(parts, '/') != "" && Join(parts, '/')[0] == parts[0][0]
    ensures Fold(parts, false, []) == parts
    ensures forall k :: 0 <= k < |parts| ==> !BadComponent(parts[k])
  {
    JoinStarts(parts);
    SplitJoin(parts, '/');
    forall k | 0 <= k < |parts| ensures PortableText(parts[k]) && !BadComponent(parts[k]) {
      assert PortablePart(parts[k]);
    }
    JoinLacks(parts, '/', '\\');
    JoinLacks(parts, '/', '$');
    JoinLacks(parts, '/', '%');
    JoinLacks(parts, '/', ':');
    JoinLacks(parts, '/', '\0');
    assert [] + parts == parts;
    FoldIsIdentity(parts, false, []);
  }

  /** A portable component list, joined, is accepted unless its text begins with '~' or is untrimmed;
    * and then normalization leaves it as it is. */
  lemma PortableIsAccepted(parts: seq<string>)
    requires parts != [] && AllPortable(parts)
    ensures var p := Join(parts, '/');
      NormalizePortable(p) == if p[0] != '~' && TrimSpace(p) == p then Some(p) else None
  {
    var p := Join(parts, '/');
    PortableJoined(parts);
    assert ReplaceChar(p, '\\', '/') == p;
    if p == "." || p == ".." || "../" <= p { SplitOfParents(p); }
  }

  lemma SplitOfParents(p: string)
    requires p == "." || p == ".." || "../" <= p
    ensures !Plain(Split(p, '/')[0])
  {
    if "../" <= p {
      assert p == ".." + ['/'] + p[3..];
      SplitAppend("..", p[3..], '/');
    } else {
      SplitOne(p, '/');
    }
  }

  /** Normalizing again succeeds, and changes nothing, exactly when the accepted form does not begin
    * with '~' and carries no outer whitespace. */
  lemma RenormalizeExactly(value: string)
    requires NormalizePortable(value).Some?
    ensures var p := NormalizePortable(value).value;
      NormalizePortable(p) == if p[0] != '~' && TrimSpace(p) == p then Some(p) else None
  {
    AcceptedIsPortable(value);
    PortableIsAccepted(Split(NormalizePortable(value).value, '/'));
  }

  lemma DotIsDropped(parts: seq<string>)
    requires parts != [] && AllPortable(parts)
    ensures var v := "./" + Join(parts, '/');
      Split(v, '/') == ["."] + parts && Clean(v) == Join(parts, '/') && PortableText(v)
  {
    var p := Join(parts, '/');
    PortableJoined(parts);
    SplitAppend(".", p, '/');
    assert "." + ['/'] + p == "./" + p;
    assert (["."] + parts)[1..] == parts;
  }

  /** Behind "./" every portable list is accepted if it does not end in whitespace, '~' or not: the
    * paths whose accepted form is refused are a whole family. */
  lemma DotHidesTheStart(parts: seq<string>)
    requires parts != [] && AllPortable(parts)
    ensures var p := Join(parts, '/');
      p != "" && NormalizePortable("./" + p) == if IsSpace(p[|p| - 1]) then None else Some(p)
  {
    var p := Join(parts, '/');
    var v := "./" + p;
    PortableJoined(parts);
    DotIsDropped(parts);
    TrimmedEnds(v);
    assert v[|v| - 1] == p[|p| - 1];
    if p == "." || p == ".." || "../" <= p { SplitOfParents(p); }
    assert AllGood(["."] + parts) by { GoodBehindDot(parts); }
    NormalizeDotted(v, p);
  }

  predicate AllGood(parts: seq<string>) {
    forall k :: 0 <= k < |parts| ==> !BadComponent(parts[k])
  }

  lemma GoodBehindDot(parts: seq<string>)
    requires AllPortable(parts)
    ensures AllGood(["."] + parts)
  {
    forall k | 0 <= k < |parts| ensures !BadComponent(parts[k]) { assert PortablePart(parts[k]); }
    assert !BadComponent(".");
  }

  /** A text that begins with a dot and has none of the refused marks is judged by its ends alone. */
  lemma NormalizeDotted(v: string, p: string)
    requires v != "" && v[0] == '.' && |v| >= 2 && v[1] == '/' && PortableText(v) && AllGood(Split(v, '/'))
    requires Clean(v) == p && p != "." && p != "" && p != ".." && !("../" <= p)
    ensures NormalizePortable(v) == if TrimSpace(v) == v then Some(p) else None
  {
    assert ReplaceChar(v, '\\', '/') == v;
  }

  /** So normalization is not idempotent: cleaning can bring a '~' to the front. */
  lemma NormalizeIsNotIdempotent()
    ensures NormalizePortable("./~a") == Some("~a") && NormalizePortable("~a") == None
  {
    assert PortablePart("~a") && AllPortable(["~a"]);
    DotHidesTheStart(["~a"]);
    PortableIsAccepted(["~a"]);
    assert "./" + "~a" == "./~a" && Join(["~a"], '/') == "~a";
  }

  /** Joined under a clean root, an accepted path stays strictly below it. */
  lemma AcceptedStaysInside(root: string, value: string)
    requires Rooted(root) && Clean(root) == root && NormalizePortable(value).Some?
    ensures var p := NormalizePortable(value).value;
      Resolved(root + "/" + p) == Resolved(root) + Split(p, '/')
  {
    var p := NormalizePortable(value).value;
    AcceptedIsPortable(value);
    CleanResolves(root);
    FoldOfJoined(Split(root, '/'), Split(p, '/'), []);
    SplitConcat(root, p);
    var base := Resolved(root);
    assert Normal(base + Split(p, '/'), true);
    FoldIsIdentity(Split(p, '/'), true, base);
  }

  lemma {:induction false} SplitConcat(a: string, b: string)
    ensures Split(a + "/" + b, '/') == Split(a, '/') + Split(b, '/')
  {
    if a == "" {
      assert (a + "/" + b)[1..] == b;
    } else {
      assert (a + "/" + b)[1..] == a[1..] + "/" + b;
      SplitConcat(a[1..], b);
    }
  }

  lemma {:induction false} FoldOfJoined(a: seq<string>, b: seq<string>, kept: seq<string>)
    ensures Fold(a + b, true, kept) == Fold(b, true, Fold(a, true, kept))
  {
    if a == [] {
      assert a + b == b;
    } else {
      assert (a + b)[1..] == a[1..] + b;
      FoldOfJoined(a[1..], b, Step(a[0], true, kept));
    }
  }

  // ----- cleaning, one component at a time -----

  lemma {:induction false} FoldAppends(a: seq<string>, last: string, rooted: bool, kept: seq<string>)
    ensures Fold(a + [last], rooted, kept) == Step(last, rooted, Fold(a, rooted, kept))
  {
    if a == [] {
      assert [] + [last] == [last] && [last][1..] == [];
    } else {
      assert (a + [last])[1..] == a[1..] + [last];
      FoldAppends(a[1..], last, rooted, Step(a[0], rooted, kept));
    }
  }

  /** Where one more component leads: nowhere new if it is empty or a dot, up if it is two dots, which stay
    * at a root and pile up at a relative beginning, and down into a name otherwise. */
  lemma StepsExactly(path: string, last: string)
    requires path != "" && '/' !in last
    ensures var before, after := Resolved(path), Resolved(path + "/" + last);
      && Rooted(path + "/" + last) == Rooted(path)
      && (last == "" || last == "." ==> after == before)
      && (Plain(last) ==> after == before + [last])
      && (last == ".." && before != [] && before[|before| - 1] != ".." ==> after == before[..|before| - 1])
      && (last == ".." && Rooted(path) && before == [] ==> after == [])
      && (last == ".." && !Rooted(path) && (before == [] || before[|before| - 1] == "..") ==> after == before + [".."])
  {
    SplitConcat(path, last);
    SplitOne(last, '/');
    FoldAppends(Split(path, '/'), last, Rooted(path), []);
  }

  /** And where a path begins. */
  lemma StartsExactly(first: string)
    requires '/' !in first
    ensures Resolved(first) == if first == "" || first == "." then [] else [first]
    ensures Resolved("/" + first) == if first == "" || first == "." || first == ".." then [] else [first]
  {
    SplitOne(first, '/');
    assert !Rooted(first) by { if first != "" { assert first[0] in first; } }
    assert [first][1..] == [] && Fold([first], false, []) == Step(first, false, []);
    SplitOne("", '/');
    SplitConcat("", first);
    assert "" + "/" + first == "/" + first && [""] + [first] == ["", first] && ["", first][1..] == [first];
    assert Split("/" + first, '/') == ["", first] && Fold([first], true, []) == Step(first, true, []);
    assert Fold(["", first], true, []) == Fold([first], true, []);
  }

  // ----- what is accepted -----

  /** The components that name something, in order. */
  function Naming(parts: seq<string>): seq<string> {
    if parts == [] then []
    else (if parts[0] == "" || parts[0] == "." then [] else [parts[0]]) + Naming(parts[1..])
  }

  lemma {:induction false} FoldNames(parts: seq<string>, kept: seq<string>)
    requires ".." !in parts
    ensures Fold(parts, false, kept) == kept + Naming(parts)
  {
    if parts != [] {
      FoldNames(parts[1..], if parts[0] == "" || parts[0] == "." then kept else kept + [parts[0]]);
    }
  }

  lemma {:induction false} NamingMembers(parts: seq<string>, part: string)
    ensures part in Naming(parts) <==> part in parts && part != "" && part != "."
  {
    if parts != [] { NamingMembers(parts[1..], part); }
  }

  predicate Printable(text: string) {
    forall i :: 0 <= i < |text| ==> text[i] >= ' '
  }

  lemma PrintableCons(c: char, text: string)
    ensures Printable([c] + text) <==> c >= ' ' && Printable(text)
  {
    if Printable([c] + text) {
      assert ([c] + text)[0] == c;
      forall i | 0 <= i < |text| ensures text[i] >= ' ' { assert ([c] + text)[i + 1] == text[i]; }
    }
  }

  predicate AllPrintable(parts: seq<string>) {
    forall k :: 0 <= k < |parts| ==> Printable(parts[k])
  }

  lemma AllPrintableCons(first: string, parts: seq<string>)
    ensures AllPrintable([first] + parts) <==> Printable(first) && AllPrintable(parts)
  {
    if AllPrintable([first] + parts) {
      assert ([first] + parts)[0] == first;
      forall k | 0 <= k < |parts| ensures Printable(parts[k]) { assert ([first] + parts)[k + 1] == parts[k]; }
    }
  }

  lemma {:induction false} PrintableParts(text: string, sep: char)
    requires sep >= ' '
    ensures Printable(text) <==> AllPrintable(Split(text, sep))
  {
    if text != "" {
      var rest := Split(text[1..], sep);
      PrintableParts(text[1..], sep);
      PrintableCons(text[0], text[1..]);
      assert text == [text[0]] + text[1..];
      AllPrintableCons("", rest);
      AllPrintableCons(rest[0], rest[1..]);
      AllPrintableCons([text[0]] + rest[0], rest[1..]);
      PrintableCons(text[0], rest[0]);
      assert rest == [rest[0]] + rest[1..];
    }
  }

  /** Relative, trimmed and printable, without a tilde in front, a dollar, percent or colon anywhere, or a
    * component of two dots, and naming something. */
  predicate PortableValue(value: string) {
    var slashed := ReplaceChar(value, '\\', '/');
    && value != "" && !IsSpace(value[0]) && !IsSpace(value[|value| - 1]) && Printable(value)
    && slashed[0] != '/' && slashed[0] != '~' && '$' !in slashed && '%' !in slashed && ':' !in slashed
    && ".." !in Split(slashed, '/') && Naming(Split(slashed, '/')) != []
  }

  /** A path is accepted exactly when it is acceptable with either slash, and becomes the components that
    * name something. */
  lemma AcceptsExactly(value: string)
    ensures NormalizePortable(value).Some? <==> PortableValue(value)
    ensures PortableValue(value) ==>
      NormalizePortable(value) == Some(Join(Naming(Split(ReplaceChar(value, '\\', '/'), '/')), '/'))
  {
    var slashed := ReplaceChar(value, '\\', '/');
    var parts := Split(slashed, '/');
    TrimmedEnds(value);
    if value != "" && slashed[0] != '/' {
      BadExactly(value, slashed);
      if ".." !in parts {
        FoldNames(parts, []);
        assert [] + Naming(parts) == Naming(parts);
        if Naming(parts) != [] { NamedText(parts); }
      }
    }
  }

  lemma BadExactly(value: string, slashed: string)
    requires slashed == ReplaceChar(value, '\\', '/')
    ensures (exists k :: 0 <= k < |Split(slashed, '/')| && BadComponent(Split(slashed, '/')[k])) <==>
      ".." in Split(slashed, '/') || !Printable(value)
    ensures Printable(value) ==> '\0' !in value
  {
    var parts := Split(slashed, '/');
    PrintableParts(slashed, '/');
    assert forall i :: 0 <= i < |value| ==> (slashed[i] >= ' ' <==> value[i] >= ' ');
    forall k | 0 <= k < |parts| ensures BadComponent(parts[k]) <==> parts[k] == ".." || !Printable(parts[k]) { }
  }

  lemma PlainStart(text: string)
    requires Plain(Split(text, '/')[0])
    ensures text != "." && text != ".." && !("../" <= text)
  {
    if text == "." || text == ".." || "../" <= text { SplitOfParents(text); }
  }

  lemma NamedText(parts: seq<string>)
    requires Naming(parts) != [] && ".." !in parts && forall k :: 0 <= k < |parts| ==> '/' !in parts[k]
    ensures var text := Join(Naming(parts), '/'); text != "." && text != "" && text != ".." && !("../" <= text)
  {
    var named := Naming(parts);
    forall k | 0 <= k < |named| ensures Plain(named[k]) { NamingMembers(parts, named[k]); }
    JoinStarts(named);
    SplitJoin(named, '/');
    PlainStart(Join(named, '/'));
  }
}
