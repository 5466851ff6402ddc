/** The readable names of payload directories and the sources below them, told without scanning: as words
  * joined by dashes, as digits behind a dash, as the last component of a path. */
module PayloadNames {
  import opened ConfigPlan
  import opened Text
  import opened PayloadNaming

  // ----- a sanitized identifier is its words joined by dashes -----

  predicate Kept(c: char) {
    'a' <= c <= 'z' || '0' <= c <= '9' || c == '.' || c == '-'
  }

  function Blanked(s: string): (r: string)
    ensures |r| == |s| && forall i :: 0 <= i < |s| ==> r[i] == if Kept(s[i]) then s[i] else ' '
  {
    seq(|s|, i requires 0 <= i < |s| => if Kept(s[i]) then s[i] else ' ')
  }

  /** The parts that are not empty. */
  function Words(parts: seq<string>): seq<string> {
    if parts == [] then []
    else
      var n := |parts| - 1;
      Words(parts[..n]) + if parts[n] == "" then [] else [parts[n]]
  }

  function Joined(s: string): string {
    Join(Words(Split(Blanked(s), ' ')), '-')
  }

  /** The parts of a text with one more character. */
  function Extended(parts: seq<string>, c: char, sep: char): seq<string>
    requires parts != []
  {
    if c == sep then parts + [""] else parts[..|parts| - 1] + [parts[|parts| - 1] + [c]]
  }

  lemma ExtendedBehind(first: string, rest: seq<string>, c: char, sep: char)
    requires rest != []
    ensures Extended([first] + rest, c, sep) == [first] + Extended(rest, c, sep)
  {
  }

  lemma ExtendedHead(h: char, rest: seq<string>, c: char, sep: char)
    requires rest != []
    ensures var more := Extended(rest, c, sep);
      Extended([[h] + rest[0]] + rest[1..], c, sep) == [[h] + more[0]] + more[1..]
  {
    var parts := [[h] + rest[0]] + rest[1..];
    if c != sep && |rest| == 1 {
      assert parts == [[h] + rest[0]] && parts[..0] == [] && rest[..0] == [];
      assert [h] + rest[0] + [c] == [h] + (rest[0] + [c]);
    }
  }

  lemma {:induction false} SplitNext(s: string, c: char, sep: char)
    ensures Split(s + [c], sep) == Extended(Split(s, sep), c, sep)
  {
    if s == "" {
      assert "" + [c] == [c] && [c][1..] == "" && Split("", sep) == [""];
      assert Split([c], sep) == (if c == sep then [""] + [""] else [[c] + ""] + [""][1..]);
      assert [""][..0] == [] && "" + [c] == [c] + "";
    } else {
      var rest := Split(s[1..], sep);
      SplitNext(s[1..], c, sep);
      assert (s + [c])[1..] == s[1..] + [c];
      if s[0] == sep { ExtendedBehind("", rest, c, sep); } else { ExtendedHead(s[0], rest, c, sep); }
    }
  }

  lemma {:induction false} SplitLast(s: string, sep: char)
    ensures var parts := Split(s, sep); parts[|parts| - 1] == "" <==> s == "" || s[|s| - 1] == sep
  {
    if s != "" {
      var n := |s| - 1;
      assert s == s[..n] + [s[n]];
      SplitNext(s[..n], s[n], sep);
    }
  }

  lemma {:induction false} JoinNext(words: seq<string>, w: string, sep: char)
    requires words != []
    ensures Join(words + [w], sep) == Join(words, sep) + [sep] + w
  {
    if |words| == 1 {
      assert (words + [w])[1..] == [w];
    } else {
      assert (words + [w])[1..] == words[1..] + [w];
      JoinNext(words[1..], w, sep);
    }
  }

  lemma JoinLonger(words: seq<string>, w: string, c: char, sep: char)
    ensures Join(words + [w + [c]], sep) == Join(words + [w], sep) + [c]
  {
    if words == [] {
      assert [] + [w] == [w] && [] + [w + [c]] == [w + [c]];
    } else {
      JoinNext(words, w, sep);
      JoinNext(words, w + [c], sep);
    }
  }

  lemma WordsNext(parts: seq<string>, x: string)
    ensures Words(parts + [x]) == Words(parts) + if x == "" then [] else [x]
  {
    assert (parts + [x])[..|parts|] == parts;
  }

  lemma {:induction false} NoWords(parts: seq<string>)
    ensures (forall w :: w in Words(parts) ==> w != "") && (Join(Words(parts), '-') == "" <==> Words(parts) == [])
  {
    if parts != [] {
      var n := |parts| - 1;
      NoWords(parts[..n]);
      if parts[n] != "" && Words(parts[..n]) != [] { JoinNext(Words(parts[..n]), parts[n], '-'); }
    }
  }

  /** One more character of the text. */
  lemma JoinedNext(s: string, c: char)
    ensures Joined(s + [c]) ==
      if !Kept(c) then Joined(s)
      else if s == "" || Kept(s[|s| - 1]) then Joined(s) + [c]
      else if Joined(s) == "" then [c]
      else Joined(s) + "-" + [c]
  {
    var blank := Blanked(s);
    var parts := Split(blank, ' ');
    var front, last := parts[..|parts| - 1], parts[|parts| - 1];
    assert parts == front + [last];
    assert Blanked(s + [c]) == blank + [if Kept(c) then c else ' '];
    SplitNext(blank, if Kept(c) then c else ' ', ' ');
    SplitLast(blank, ' ');
    WordsNext(front, last);
    NoWords(front);
    if !Kept(c) {
      WordsNext(parts, "");
      assert Words(parts) + [] == Words(parts);
    } else {
      WordsNext(front, last + [c]);
      assert Words(front) + [] == Words(front);
      if last == "" {
        assert "" + [c] == [c];
        if Words(front) == [] { assert [] + [[c]] == [[c]]; } else { JoinNext(Words(front), [c], '-'); }
      } else {
        JoinLonger(Words(front), last, c, '-');
      }
    }
  }

  lemma ScannedNext(s: string, c: char)
    ensures Scanned(s + [c]) ==
      if !Kept(c) then (Scanned(s).0, true)
      else ((if Scanned(s).1 && Scanned(s).0 != "" then Scanned(s).0 + "-" else Scanned(s).0) + [c], false)
  {
    assert (s + [c])[..|s|] == s && (s + [c])[|s|] == c && (SafeChar(c) <==> Kept(c));
  }

  /** The scan has built the words so far, and knows whether the last character separates. */
  predicate Agrees(s: string) {
    Scanned(s).0 == Joined(s) && (Scanned(s).1 <==> s != "" && !Kept(s[|s| - 1]))
  }

  lemma AgreesNext(s: string)
    requires s != "" && Agrees(s[..|s| - 1])
    ensures Agrees(s)
  {
    var n := |s| - 1;
    JoinedNext(s[..n], s[n]);
    ScannedNext(s[..n], s[n]);
    assert s == s[..n] + [s[n]];
  }

  lemma NothingScanned()
    ensures Agrees("")
  {
    assert Blanked("") == "" && Split("", ' ') == [""];
    WordsNext([], "");
    assert [] + [""] == [""];
  }

  lemma {:induction false} ScanIsWords(s: string)
    ensures Agrees(s)
  {
    if s == "" {
      NothingScanned();
    } else {
      ScanIsWords(s[..|s| - 1]);
      AgreesNext(s);
    }
  }

  predicate DashOrDot(c: char) {
    c == '-' || c == '.'
  }

  /** Only dashes and dots are missing at the ends. */
  ghost predicate CutFrom(text: string, name: string) {
    exists before, after ::
      text == before + name + after && forall c :: c in before || c in after ==> DashOrDot(c)
  }

  /** The part of an identifier that is sanitized. */
  function Naming(identifier: string): string {
    TrimPrefix(Lower(TrimSpace(identifier)), "apps.")
  }

  /** Sanitizing folds the identifier, leaves out "apps.", joins what other characters separate by single
    * dashes and cuts dashes and dots off both ends. */
  lemma SanitizedIsWords(identifier: string)
    ensures CutFrom(Joined(Naming(identifier)), Sanitized(identifier))
    ensures var name := Sanitized(identifier); name == "" || (!DashOrDot(name[0]) && !DashOrDot(name[|name| - 1]))
  {
    ScanIsWords(Naming(identifier));
    TrimCutsOnly(Joined(Naming(identifier)));
  }

  lemma TrimCutsOnly(text: string)
    ensures CutFrom(text, Trim(text, IsEdge))
    ensures var name := Trim(text, IsEdge); name == "" || (!DashOrDot(name[0]) && !DashOrDot(name[|name| - 1]))
  {
    var before := LeftCut(text);
    var middle := TrimLeft(text, IsEdge);
    var after := RightCut(middle);
    assert text == before + Trim(text, IsEdge) + after;
  }

  lemma {:induction false} LeftCut(text: string) returns (before: string)
    ensures text == before + TrimLeft(text, IsEdge) && forall c :: c in before ==> DashOrDot(c)
    ensures var rest := TrimLeft(text, IsEdge); rest == "" || !DashOrDot(rest[0])
  {
    before := "";
    if text != "" && IsEdge(text[0]) {
      var more := LeftCut(text[1..]);
      before := [text[0]] + more;
    }
  }

  lemma {:induction false} RightCut(text: string) returns (after: string)
    ensures text == TrimRight(text, IsEdge) + after && forall c :: c in after ==> DashOrDot(c)
    ensures var rest := TrimRight(text, IsEdge); rest == "" || (rest[0] == text[0] && !DashOrDot(rest[|rest| - 1]))
  {
    after := "";
    if text != "" && IsEdge(text[|text| - 1]) {
      var more := RightCut(text[..|text| - 1]);
      after := more + [text[|text| - 1]];
    }
  }

  // ----- the short suffix -----

  /** The digits a text begins with: all of them, up to the limit. */
  lemma {:induction false} DigitsExactly(s: string, limit: nat)
    ensures var digits := HexRun(s, limit);
      && digits <= s && |digits| <= limit && (forall c :: c in digits ==> '0' <= c <= '9' || 'a' <= c <= 'f')
      && (|digits| < limit && |digits| < |s| ==> !('0' <= s[|digits|] <= '9' || 'a' <= s[|digits|] <= 'f'))
  {
    if s != "" && limit > 0 && IsHex(s[0]) { DigitsExactly(s[1..], limit - 1); }
  }

  lemma {:induction false} NoDash(s: string)
    requires '-' !in s
    ensures AfterLastDash(s) == s
  {
    if s != "" { assert s[0] in s; }
  }

  lemma {:induction false} BehindLastDash(front: string, back: string)
    requires '-' !in back
    ensures AfterLastDash(front + "-" + back) == back
  {
    var s := front + "-" + back;
    if front == "" {
      assert s[0] == '-' && s[1..] == back;
    } else {
      assert s[1..] == front[1..] + "-" + back && s[1..][|front| - 1] == '-';
      BehindLastDash(front[1..], back);
    }
  }

  /** A directory is named by what is readable of the module and at most eight digits of its identity, and by
    * the whole identity if nothing is readable. */
  lemma NameExactly(identifier: string, front: string, back: string)
    requires '-' !in back
    ensures var name, digits := ReadableName(identifier, front + "-" + back), HexRun(back, 8);
      && (Sanitized(identifier) == "" ==> name == front + "-" + back)
      && (Sanitized(identifier) != "" && digits == "" ==> name == Sanitized(identifier))
      && (Sanitized(identifier) != "" && digits != "" ==> name == Sanitized(identifier) + "-" + digits)
  {
    BehindLastDash(front, back);
  }

  // ----- sources -----

  lemma {:induction false} SlashesGo(text: string, slashes: string)
    requires (text == "" || text[|text| - 1] != '/') && forall c :: c in slashes ==> c == '/'
    ensures TrimRight(text + slashes, IsSlash) == text
  {
    if slashes == "" {
      assert text + slashes == text;
    } else {
      var n, all := |slashes| - 1, text + slashes;
      assert forall c :: c in slashes[..n] ==> c in slashes;
      assert slashes[n] in slashes;
      assert all[..|all| - 1] == text + slashes[..n] && all[|all| - 1] == slashes[n];
      SlashesGo(text, slashes[..n]);
    }
  }

  /** The last component of a path is what stands behind its last slash, slashes at the end aside. */
  lemma LastComponent(front: string, last: string, slashes: string)
    requires last != "" && '/' !in last && forall c :: c in slashes ==> c == '/'
    ensures BaseName(last + slashes) == last && BaseName(front + "/" + last + slashes) == last
    ensures BaseName(slashes) == "/"
  {
    assert last[|last| - 1] in last;
    SlashesGo(last, slashes);
    SlashesGo(front + "/" + last, slashes);
    SlashesGo("", slashes);
    assert "" + slashes == slashes;
    SplitOne(last, '/');
    LastOfSplit(front, last);
  }

  lemma {:induction false} LastOfSplit(front: string, last: string)
    requires '/' !in last
    ensures var parts := Split(front + "/" + last, '/'); parts[|parts| - 1] == last && |parts| > 1
  {
    var s := front + "/" + last;
    if front == "" {
      assert s[1..] == last;
      SplitOne(last, '/');
    } else {
      assert s[1..] == front[1..] + "/" + last;
      LastOfSplit(front[1..], last);
    }
  }

  /** A source in the authored payload of an app is rewritten to the app, or to the last component below it. */
  lemma SourceInPayload(source: string, app: string, below: string, directory: string)
    requires app != "" && '/' !in app
    ensures ReplaceChar(source, '\\', '/') == "./payload/apps/" + app ==>
      RewriteSource(source, directory) == "./configs/" + directory + "/" + app
    ensures ReplaceChar(source, '\\', '/') == "./payload/apps/" + app + "/" + below && below != "" && '\n' !in below ==>
      RewriteSource(source, directory) == "./configs/" + directory + "/" + BaseName(below)
  {
    var portable := ReplaceChar(source, '\\', '/');
    SplitOne(app, '/');
    SplitAppend(app, below, '/');
    JoinSplit(below, '/');
    if portable == "./payload/apps/" + app {
      assert portable[|PAYLOAD|..] == app;
    }
    if portable == "./payload/apps/" + app + "/" + below {
      assert portable[|PAYLOAD|..] == app + ['/'] + below;
      assert ([app] + Split(below, '/'))[1..] == Split(below, '/');
    }
  }

  /** Any other source stays as it is. */
  lemma SourceElsewhere(source: string, directory: string)
    requires !("./payload/apps/" <= ReplaceChar(source, '\\', '/'))
    ensures RewriteSource(source, directory) == source
  {
  }
}
