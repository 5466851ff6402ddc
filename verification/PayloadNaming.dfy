/** How a mixed bundle names its payload directories and rewrites the sources of restore entries. */
module PayloadNaming {
  import opened ConfigPlan
  import opened Text
  import opened Spellings
  import opened PortablePath
  import opened TextCodec
  import opened Identity
  import opened StrictManifest

  // ----- readable directory names -----

  predicate SafeChar(c: char) {
    Alphanumeric(c) || c == '.' || c == '-'
  }

  predicate IsEdge(c: char) {
    c == '-' || c == '.'
  }

  /** What is built from a text, and whether a run of other characters is still to become a dash. */
  function Scanned(s: string): (string, bool) {
    if s == "" then ("", false)
    else
      var n := |s| - 1;
      var (built, pending) := Scanned(s[..n]);
      if SafeChar(s[n]) then ((if pending && built != "" then built + "-" else built) + [s[n]], false)
      else (built, true)
  }

  function Sanitized(identifier: string): string {
    Trim(Scanned(TrimPrefix(Folded(identifier), "apps.")).0, IsEdge)
  }

  function Folded(identifier: string): string {
    Lower(TrimSpace(identifier))
  }

  method SanitizeSegment(identifier: string) returns (segment: string)
    ensures segment == Sanitized(identifier)
  {
    var text := TrimPrefix(Folded(identifier), "apps.");
    var built, pending := "", false;
    for n := 0 to |text|
      invariant (built, pending) == Scanned(text[..n])
    {
      assert text[..n + 1][..n] == text[..n];
      if SafeChar(text[n]) {
        if pending && built != "" {
          built := built + "-";
        }
        pending := false;
        built := built + [text[n]];
      } else {
        pending := true;
      }
    }
    assert text[..|text|] == text;
    segment := Trim(built, IsEdge);
  }

  predicate IsHex(c: char) {
    '0' <= c <= '9' || 'a' <= c <= 'f'
  }

  function AfterLastDash(s: string): string {
    if s == "" then "" else if '-' in s[1..] then AfterLastDash(s[1..]) else if s[0] == '-' then s[1..] else s
  }

  /** The hexadecimal digits a text begins with, at most `limit` of them. */
  function HexRun(s: string, limit: nat): string {
    if s == "" || limit == 0 || !IsHex(s[0]) then "" else [s[0]] + HexRun(s[1..], limit - 1)
  }

  function ShortSuffix(captureID: string): string {
    HexRun(AfterLastDash(captureID), 8)
  }

  method ShortHashSuffix(captureID: string) returns (suffix: string)
    ensures suffix == ShortSuffix(captureID)
  {
    var digits := AfterLastDash(captureID);
    suffix := "";
    var n := 0;
    while n < |digits| && |suffix| < 8 && IsHex(digits[n])
      invariant n <= |digits| && |suffix| == n <= 8
      invariant HexRun(digits, 8) == suffix + HexRun(digits[n..], 8 - n)
      decreases |digits| - n
    {
      assert digits[n..][1..] == digits[n + 1..];
      var rest := HexRun(digits[n + 1..], 7 - n);
      assert suffix + ([digits[n]] + rest) == (suffix + [digits[n]]) + rest;
      suffix := suffix + [digits[n]];
      n := n + 1;
    }
  }

  /** A sanitized name with a short suffix of the identity, or the identity when nothing readable is left. */
  function ReadableName(identifier: string, captureID: string): string {
    var prefix, short := Sanitized(identifier), ShortSuffix(captureID);
    if prefix == "" then captureID else if short == "" then prefix else prefix + "-" + short
  }

  function ConfigPayloadRoot(moduleID: string, captureID: string): string {
    Clean("configs/" + ReadableName(moduleID, captureID))
  }

  /** The directory of a module's lane. */
  function PayloadDirectory(moduleID: string): string {
    TrimPrefix(ConfigPayloadRoot(moduleID, LegacyCaptureID(moduleID)), "configs/")
  }

  // ----- every name is safe -----

  /** Lower-case letters, digits, dots and dashes, beginning with a letter or digit. */
  predicate SafeName(name: string) {
    name != "" && Alphanumeric(name[0]) && forall i :: 0 <= i < |name| ==> SafeChar(name[i])
  }

  predicate AllSafe(s: string) {
    forall i :: 0 <= i < |s| ==> SafeChar(s[i])
  }

  lemma {:induction false} ScannedSafe(s: string)
    ensures AllSafe(Scanned(s).0)
  {
    if s != "" { ScannedSafe(s[..|s| - 1]); }
  }

  lemma {:induction false} TrimLeftEdge(s: string)
    requires AllSafe(s)
    ensures var r := TrimLeft(s, IsEdge); AllSafe(r) && (r == "" || Alphanumeric(r[0]))
  {
    if s != "" && IsEdge(s[0]) { TrimLeftEdge(s[1..]); }
  }

  lemma {:induction false} TrimRightIsPrefix(s: string, cut: char -> bool)
    ensures TrimRight(s, cut) <= s
  {
    if s != "" && cut(s[|s| - 1]) { TrimRightIsPrefix(s[..|s| - 1], cut); }
  }

  lemma SanitizedIsSafe(identifier: string)
    ensures Sanitized(identifier) == "" || SafeName(Sanitized(identifier))
  {
    var built := Scanned(TrimPrefix(Folded(identifier), "apps.")).0;
    ScannedSafe(TrimPrefix(Folded(identifier), "apps."));
    TrimLeftEdge(built);
    TrimRightIsPrefix(TrimLeft(built, IsEdge), IsEdge);
  }

  lemma {:induction false} HexRunIsHex(s: string, limit: nat)
    ensures forall i :: 0 <= i < |HexRun(s, limit)| ==> IsHex(HexRun(s, limit)[i])
  {
    if s != "" && limit != 0 && IsHex(s[0]) { HexRunIsHex(s[1..], limit - 1); }
  }

  lemma ReadableIsSafe(identifier: string, captureID: string)
    requires SafeName(captureID)
    ensures SafeName(ReadableName(identifier, captureID))
  {
    SanitizedIsSafe(identifier);
    HexRunIsHex(AfterLastDash(captureID), 8);
  }

  lemma PrefixedHexIsSafe(prefix: string, bytes: seq<Byte>)
    requires SafeName(prefix)
    ensures SafeName(prefix + Hex(bytes))
  {
    HexText(bytes);
    var name := prefix + Hex(bytes);
    forall i | 0 <= i < |name| ensures SafeChar(name[i]) {
      if i >= |prefix| {
        assert name[i] == Hex(bytes)[i - |prefix|] && name[i] in HEX;
      }
    }
  }

  lemma IdentitiesAreSafe(moduleID: string, setID: string, instanceID: string)
    ensures SafeName(LegacyCaptureID(moduleID)) && SafeName(CaptureID(moduleID, setID, instanceID))
  {
    PrefixedHexIsSafe("legacy-", LegacyFrame(moduleID));
    PrefixedHexIsSafe("capture-", CaptureFrame(moduleID, setID, instanceID));
  }

  lemma ConfigsIsPlain()
    ensures Plain("configs") && Split("configs", '/') == ["configs"]
  {
    SplitOne("configs", '/');
  }

  lemma SafeIsPlain(name: string)
    requires SafeName(name)
    ensures Plain(name) && Split(name, '/') == [name]
  {
    assert '/' !in name;
    SplitOne(name, '/');
  }

  lemma SafeRootSplit(name: string)
    requires SafeName(name)
    ensures Split("configs/" + name, '/') == ["configs", name] && AllPlain(Split("configs/" + name, '/'))
  {
    ConfigsIsPlain();
    SafeIsPlain(name);
    SplitConcat("configs", name);
    assert "configs" + "/" + name == "configs/" + name;
  }

  predicate RootChar(c: char) {
    SafeChar(c) || c == '/'
  }

  /** A text of these characters that neither begins nor ends oddly is its own trimmed, folded form. */
  lemma RootText(root: string)
    requires root != "" && forall i :: 0 <= i < |root| ==> RootChar(root[i])
    ensures TrimSpace(root) == root && Lower(root) == root
    ensures '\\' !in root && ':' !in root && '$' !in root && '%' !in root
  {
    assert forall i :: 0 <= i < |root| ==> !IsSpace(root[i]) && LowerChar(root[i]) == root[i];
    TrimmedEnds(root);
  }

  /** A safe name is one valid directory under "configs/". */
  lemma SafeIsValidRoot(name: string)
    requires SafeName(name)
    ensures ValidRoot("configs/" + name) && Clean("configs/" + name) == "configs/" + name
    ensures Split("configs/" + name, '/') == ["configs", name] && Lower("configs/" + name) == "configs/" + name
  {
    var root := "configs/" + name;
    RootText(root);
    SafeRootSplit(name);
    PlainIsClean(root);
    assert root[..8] == "configs/" && root[8..] == name && '/' !in name;
    assert root[0] == 'c' && root[1] == 'o';
    assert ["configs", name][1] != "..";
  }

  /** Whatever the module ID, its payload directory is valid and its root needs no cleaning. */
  lemma DirectoryIsValid(moduleID: string)
    ensures PayloadDirectory(moduleID) == ReadableName(moduleID, LegacyCaptureID(moduleID))
    ensures SafeName(PayloadDirectory(moduleID)) && ValidRoot("configs/" + PayloadDirectory(moduleID))
  {
    IdentitiesAreSafe(moduleID, "", "");
    ReadableIsSafe(moduleID, LegacyCaptureID(moduleID));
    SafeIsValidRoot(ReadableName(moduleID, LegacyCaptureID(moduleID)));
  }

  /** Roots of safe names overlap only when they are the same. */
  lemma SafeRootsOverlap(a: string, b: string)
    requires SafeName(a) && SafeName(b)
    ensures PortableOverlap("configs/" + a, "configs/" + b) <==> a == b
  {
    SafeIsValidRoot(a);
    SafeIsValidRoot(b);
    NoneBelow(a, b);
    NoneBelow(b, a);
    assert ("configs/" + a)[8..] == a && ("configs/" + b)[8..] == b;
  }

  lemma NoneBelow(a: string, b: string)
    requires SafeName(a)
    ensures !(("configs/" + b) + ['/'] <= "configs/" + a)
  {
    var root, path := ("configs/" + b) + ['/'], "configs/" + a;
    assert root[8 + |b|] == '/';
    assert |b| < |a| ==> path[8 + |b|] == a[|b|] != '/';
  }

  // ----- rewritten sources -----

  const PAYLOAD: string := "./payload/apps/"

  predicate IsSlash(c: char) {
    c == '/'
  }

  /** The last element of a path. */
  function BaseName(path: string): string {
    var stripped := TrimRight(path, IsSlash);
    var parts := Split(stripped, '/');
    if stripped == "" then "/" else parts[|parts| - 1]
  }

  /** What a source inside the authored payload of an app keeps: the app, or the last element below it. */
  function PayloadLeaf(source: string): Option<string> {
    var portable := ReplaceChar(source, '\\', '/');
    if !(PAYLOAD <= portable) then None
    else
      var rest := portable[|PAYLOAD|..];
      var app := Split(rest, '/')[0];
      if app == "" then None
      else if app == rest then Some(app)
      else
        var below := Join(Split(rest, '/')[1..], '/');
        if below == "" || '\n' in below then None else Some(BaseName(below))
  }

  function RewriteSource(source: string, directory: string): string {
    match PayloadLeaf(source)
    case Some(leaf) => "./configs/" + directory + "/" + leaf
    case None => source
  }

  /** Without the white space it ends in, the leaf is one component of a portable path. */
  predicate LeafFits(leaf: string) {
    Plain(TrimRight(leaf, IsSpace)) && ':' !in leaf && '$' !in leaf && '%' !in leaf
  }

  /** An authored source that reaches the lane of its module: below the authored payload with a leaf that
    * fits, blank, or already below the lane's root. */
  predicate SourceFits(source: string, directory: string) {
    match PayloadLeaf(source)
    case Some(leaf) => LeafFits(leaf)
    case None => UnderRoot(source, "configs/" + directory)
  }

  lemma {:induction false} BaseNameShape(path: string)
    requires path != "" && '\\' !in path
    ensures (BaseName(path) == "/" || '/' !in BaseName(path)) && '\\' !in BaseName(path)
  {
    var stripped := TrimRight(path, IsSlash);
    TrimRightIsPrefix(path, IsSlash);
    assert '\\' !in stripped;
    SplitMembers(stripped, '/', '\\');
  }

  lemma LeafShape(source: string)
    requires PayloadLeaf(source).Some?
    ensures var leaf := PayloadLeaf(source).value; (leaf == "/" || '/' !in leaf) && '\\' !in leaf
  {
    var portable := ReplaceChar(source, '\\', '/');
    assert forall i :: 0 <= i < |portable| ==> portable[i] != '\\';
    var rest := portable[|PAYLOAD|..];
    assert '\\' !in rest;
    SplitMembers(rest, '/', '\\');
    if Split(rest, '/')[0] != rest {
      var below := Join(Split(rest, '/')[1..], '/');
      JoinLacks(Split(rest, '/')[1..], '/', '\\');
      BaseNameShape(below);
    }
  }

  /** White space is cut off the end of a concatenation inside its last part. */
  lemma {:induction false} TrimRightAppend(a: string, b: string)
    requires a != "" && !IsSpace(a[|a| - 1])
    ensures TrimRight(a + b, IsSpace) == a + TrimRight(b, IsSpace)
  {
    if b == "" {
      assert a + b == a;
    } else {
      var n := |b| - 1;
      assert (a + b)[..|a| + n] == a + b[..n] && (a + b)[|a| + n] == b[n];
      if IsSpace(b[n]) { TrimRightAppend(a, b[..n]); }
    }
  }

  lemma {:induction false} TrimRightMembers(s: string, c: char)
    requires !IsSpace(c)
    ensures c in TrimRight(s, IsSpace) <==> c in s
  {
    if s != "" && IsSpace(s[|s| - 1]) {
      TrimRightMembers(s[..|s| - 1], c);
      assert s == s[..|s| - 1] + [s[|s| - 1]];
    }
  }

  lemma {:induction false} TrimRightTwice(s: string)
    ensures TrimRight(TrimRight(s, IsSpace), IsSpace) == TrimRight(s, IsSpace)
  {
    if s != "" && IsSpace(s[|s| - 1]) { TrimRightTwice(s[..|s| - 1]); }
  }

  lemma TrimSpaceAppend(a: string, b: string)
    requires a != "" && !IsSpace(a[0]) && !IsSpace(a[|a| - 1])
    ensures TrimSpace(a + b) == a + TrimRight(b, IsSpace)
  {
    assert (a + b)[0] == a[0];
    TrimRightAppend(a, b);
  }

  /** What lies before the leaf of a rewritten source: begins like "configs", ends in a separator. */
  predicate IsBase(base: string) {
    && |base| >= 2 && base[0] == 'c' && base[1] == 'o' && base[|base| - 1] == '/'
    && forall i :: 0 <= i < |base| ==> RootChar(base[i])
  }

  lemma DotConcat(base: string, rest: string)
    ensures ("./" + base) + rest == "./" + (base + rest)
  {
  }

  /** A rewritten source is normalized to its base and its leaf without trailing white space, or refused. */
  lemma RewrittenPortable(base: string, leaf: string, rewritten: string, portable: string)
    requires IsBase(base) && '\\' !in leaf
    requires rewritten == ("./" + base) + leaf && portable == base + TrimRight(leaf, IsSpace)
    ensures TrimSpace(rewritten) == "./" + portable
    ensures NormalizeSource(rewritten) == if ValidPath(portable) then Some(portable) else None
  {
    RewrittenTrims(base, leaf);
    DotConcat(base, TrimRight(leaf, IsSpace));
    RewrittenChars(base, leaf, '\\');
    NormalizesTo(rewritten, portable);
  }

  lemma RewrittenTrims(base: string, leaf: string)
    requires IsBase(base)
    ensures TrimSpace(("./" + base) + leaf) == ("./" + base) + TrimRight(leaf, IsSpace)
  {
    var head := "./" + base;
    assert head[0] == '.' && head[|head| - 1] == base[|base| - 1];
    TrimSpaceAppend(head, leaf);
  }

  lemma NormalizesTo(source: string, portable: string)
    requires TrimSpace(source) == "./" + portable && '\\' !in portable
    ensures NormalizeSource(source) == if ValidPath(portable) then Some(portable) else None
  {
    var dotted := "./" + portable;
    assert forall i :: 0 <= i < |dotted| ==> dotted[i] != '\\';
    assert ReplaceChar(dotted, '\\', '/') == dotted;
    assert dotted[2..] == portable;
  }

  lemma RewrittenTrimmed(base: string, leaf: string)
    requires IsBase(base)
    ensures TrimSpace(base + TrimRight(leaf, IsSpace)) == base + TrimRight(leaf, IsSpace)
  {
    TrimSpaceAppend(base, TrimRight(leaf, IsSpace));
    TrimRightTwice(leaf);
  }

  lemma RewrittenChars(base: string, leaf: string, c: char)
    requires IsBase(base) && !IsSpace(c) && !RootChar(c)
    ensures c in base + TrimRight(leaf, IsSpace) <==> c in leaf
  {
    TrimRightMembers(leaf, c);
  }

  /** A leaf without its trailing white space is one plain component exactly when it splits into plain ones. */
  lemma LeafSplit(leaf: string)
    requires leaf == "/" || '/' !in leaf
    ensures Plain(TrimRight(leaf, IsSpace)) <==> AllPlain(Split(TrimRight(leaf, IsSpace), '/'))
  {
    var t := TrimRight(leaf, IsSpace);
    TrimRightMembers(leaf, '/');
    if '/' in leaf {
      assert t[0] == '/' && Split(t, '/')[0] == "";
    } else {
      SplitOne(t, '/');
      assert AllPlain([t]) <==> Plain([t][0]);
    }
  }

  /** Behind a base of plain components a path is valid exactly when its leaf fits. */
  lemma RewrittenValid(base: string, leaf: string)
    requires IsBase(base) && (leaf == "/" || '/' !in leaf) && '\\' !in leaf
    requires var t := TrimRight(leaf, IsSpace); AllPlain(Split(base + t, '/')) <==> AllPlain(Split(t, '/'))
    ensures ValidPath(base + TrimRight(leaf, IsSpace)) <==> LeafFits(leaf)
  {
    var portable := base + TrimRight(leaf, IsSpace);
    LeafSplit(leaf);
    RewrittenTrimmed(base, leaf);
    RewrittenChars(base, leaf, ':');
    RewrittenChars(base, leaf, '$');
    RewrittenChars(base, leaf, '%');
    RewrittenChars(base, leaf, '\\');
    assert portable[0] == 'c' && portable[1] == 'o';
    if ValidPath(portable) { ValidIsPlain(portable); }
    if AllPlain(Split(portable, '/')) {
      PlainIsClean(portable);
      NoParents(Split(portable, '/'));
    }
  }

  lemma NoParents(parts: seq<string>)
    requires AllPlain(parts)
    ensures ".." !in parts
  {
  }

  lemma RewrittenSplit(directory: string, t: string)
    requires SafeName(directory)
    ensures var base := "configs/" + directory + "/";
      IsBase(base) && (AllPlain(Split(base + t, '/')) <==> AllPlain(Split(t, '/')))
  {
    var root, base := "configs/" + directory, "configs/" + directory + "/";
    SafeRootSplit(directory);
    SplitConcat(root, t);
    assert base + t == root + "/" + t;
    var parts, whole := Split(t, '/'), Split(root, '/') + Split(t, '/');
    assert forall k :: 0 <= k < |parts| ==> parts[k] == whole[k + 2];
  }

  /** A rewritten source lies below the lane's root, and is portable, exactly when the authored one fits. */
  lemma RewrittenSourceFits(source: string, directory: string)
    requires SafeName(directory)
    ensures UnderRoot(RewriteSource(source, directory), "configs/" + directory) <==> SourceFits(source, directory)
  {
    if PayloadLeaf(source).Some? {
      var leaf := PayloadLeaf(source).value;
      LeafShape(source);
      RewrittenLeafFits(directory, leaf, RewriteSource(source, directory));
    }
  }

  lemma RewrittenLeafFits(directory: string, leaf: string, rewritten: string)
    requires SafeName(directory) && (leaf == "/" || '/' !in leaf) && '\\' !in leaf
    requires rewritten == "./configs/" + directory + "/" + leaf
    ensures UnderRoot(rewritten, "configs/" + directory) <==> LeafFits(leaf)
  {
    var root, t := "configs/" + directory, TrimRight(leaf, IsSpace);
    var base := root + "/";
    RewrittenSplit(directory, t);
    RewrittenValid(base, leaf);
    assert rewritten == ("./" + base) + leaf by { RewrittenText(directory); }
    RewrittenUnder(root, base, leaf, rewritten);
  }

  lemma RewrittenText(directory: string)
    ensures "./configs/" + directory + "/" == "./" + ("configs/" + directory + "/")
  {
  }

  lemma RewrittenUnder(root: string, base: string, leaf: string, rewritten: string)
    requires IsBase(base) && base == root + "/" && '\\' !in leaf && rewritten == ("./" + base) + leaf
    ensures UnderRoot(rewritten, root) <==> ValidPath(base + TrimRight(leaf, IsSpace))
  {
    var portable := base + TrimRight(leaf, IsSpace);
    RewrittenPortable(base, leaf, rewritten, portable);
    assert "./" + portable != "";
    assert root + ['/'] == base <= portable;
  }
}
