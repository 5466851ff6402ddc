/** Redaction of host paths in diagnostics: a path that starts at a boundary is replaced up to its
  * terminator. Unicode's classes are parameters; only what holds of separators and letters is used. */
module HostPathRedaction {

  datatype Classes = Classes(space: char -> bool, symbol: char -> bool, punctuation: char -> bool)

  const MARKER := "[local path]"

  predicate Alpha(c: char) {
    'a' <= c <= 'z' || 'A' <= c <= 'Z'
  }

  /** Characters a host path can begin with. */
  predicate Opener(c: char) {
    c == '/' || c == '~' || c == '\\' || Alpha(c)
  }

  /** The slash is punctuation only, and nothing that opens a path is white space. */
  ghost predicate Sound(classes: Classes) {
    && (forall c :: Opener(c) ==> !classes.space(c))
    && !classes.symbol('/')
  }

  predicate Terminator(classes: Classes, c: char) {
    classes.space(c) || c in "\"')]}>,;"
  }

  predicate Boundary(classes: Classes, text: string, i: nat)
    requires i < |text|
  {
    i == 0 ||
    (var previous := text[i - 1];
     classes.space(previous) || classes.symbol(previous) ||
     (classes.punctuation(previous) && previous != '/' && previous != '\\'))
  }

  /** What follows at `i` looks like the start of a host path. */
  predicate Opens(text: string, i: nat)
    requires i < |text|
  {
    var rest := |text| - i;
    if text[i] == '/' then rest == 1 || text[i + 1] != '/'
    else if text[i] == '~' then rest > 1 && (text[i + 1] == '/' || text[i + 1] == '\\')
    else if text[i] == '\\' then rest > 1 && text[i + 1] == '\\'
    else
      && rest >= 3 && Alpha(text[i]) && text[i + 1] == ':'
      && (text[i + 2] == '/' || text[i + 2] == '\\')
      && (rest == 3 || text[i + 2] == '\\' || text[i + 3] != '/')
  }

  predicate StartsAt(classes: Classes, text: string, i: nat)
    requires i < |text|
  {
    Boundary(classes, text, i) && Opens(text, i)
  }

  function EndOf(classes: Classes, text: string, i: nat): (end: nat)
    requires i <= |text|
    ensures i <= end <= |text| && (end < |text| ==> Terminator(classes, text[end]))
    ensures forall k :: i <= k < end ==> !Terminator(classes, text[k])
    decreases |text| - i
  {
    if i == |text| || Terminator(classes, text[i]) then i else EndOf(classes, text, i + 1)
  }

  function RedactFrom(classes: Classes, text: string, i: nat): string
    requires i <= |text|
    decreases |text| - i
  {
    if i == |text| then ""
    else if StartsAt(classes, text, i) && EndOf(classes, text, i) > i then
      MARKER + RedactFrom(classes, text, EndOf(classes, text, i))
    else [text[i]] + RedactFrom(classes, text, i + 1)
  }

  function Redacted(classes: Classes, text: string): string {
    RedactFrom(classes, text, 0)
  }

  lemma PathsAreNotEmpty(classes: Classes, text: string, i: nat)
    requires Sound(classes) && i < |text| && StartsAt(classes, text, i)
    ensures EndOf(classes, text, i) > i
  {
    assert Opener(text[i]);
  }

  method FindEnd(classes: Classes, text: string, index: nat) returns (end: nat)
    requires index <= |text|
    ensures end == EndOf(classes, text, index)
  {
    end := index;
    while end < |text| && !Terminator(classes, text[end])
      invariant index <= end <= |text| && EndOf(classes, text, end) == EndOf(classes, text, index)
    {
      end := end + 1;
    }
  }

  /** What the scan has produced and still owes at `index`, having copied the input up to `last`. */
  ghost predicate Scanned(classes: Classes, text: string, done: string, last: nat, index: nat) {
    && last <= index <= |text| && (last == 0 ==> done == "")
    && done + (text[last..index] + RedactFrom(classes, text, index)) == Redacted(classes, text)
  }

  lemma KeepOne(classes: Classes, text: string, done: string, last: nat, index: nat)
    requires Scanned(classes, text, done, last, index) && index < |text| && !StartsAt(classes, text, index)
    ensures Scanned(classes, text, done, last, index + 1)
  {
    assert text[last..index + 1] == text[last..index] + [text[index]];
    assert text[last..index + 1] + RedactFrom(classes, text, index + 1) ==
      text[last..index] + RedactFrom(classes, text, index);
  }

  lemma MarkOne(classes: Classes, text: string, done: string, last: nat, index: nat)
    requires Sound(classes)
    requires Scanned(classes, text, done, last, index) && index < |text| && StartsAt(classes, text, index)
    ensures var end := EndOf(classes, text, index);
      end > index && Scanned(classes, text, done + text[last..index] + MARKER, end, end)
  {
    PathsAreNotEmpty(classes, text, index);
    var end := EndOf(classes, text, index);
    var rest := RedactFrom(classes, text, end);
    assert text[end..end] + rest == rest;
    assert done + text[last..index] + MARKER + rest == done + (text[last..index] + (MARKER + rest));
  }

  /** The scan: text between two paths is copied when the next path is met. */
  method Redact(classes: Classes, text: string) returns (redacted: string)
    requires Sound(classes)
    ensures redacted == Redacted(classes, text)
  {
    var done := "";
    var last: nat, index: nat := 0, 0;
    while index < |text|
      invariant Scanned(classes, text, done, last, index)
      decreases |text| - index
    {
      if !StartsAt(classes, text, index) {
        KeepOne(classes, text, done, last, index);
        index := index + 1;
      } else {
        MarkOne(classes, text, done, last, index);
        var end := FindEnd(classes, text, index);
        done := done + text[last..index] + MARKER;
        last, index := end, end;
      }
    }
    assert text[last..] == text[last..index] + RedactFrom(classes, text, index);
    if last == 0 {
      return text;
    }
    return done + text[last..];
  }

  // ----- nothing is left -----

  /** How the output up to here continues at position `i` of the input: with the same previous
    * character, or with a marker in front of a terminator. */
  predicate Follows(classes: Classes, text: string, i: nat, before: string)
    requires i <= |text|
  {
    || (i == 0 && before == "")
    || (i > 0 && before != "" && before[|before| - 1] == text[i - 1])
    || (before != "" && before[|before| - 1] == ']' && (i == |text| || Terminator(classes, text[i])))
  }

  lemma MarkerIsClean(classes: Classes, out: string, from: nat, p: nat)
    requires from + |MARKER| <= |out| && out[from..from + |MARKER|] == MARKER
    requires from <= p < from + |MARKER|
    ensures !StartsAt(classes, out, p)
  {
    var q := p - from;
    assert out[p] == MARKER[q];
    if q < 11 { assert out[p + 1] == MARKER[q + 1]; }
  }

  /** The first character of the rest of the output. */
  lemma NextOut(classes: Classes, text: string, i: nat)
    requires i <= |text|
    ensures i == |text| ==> RedactFrom(classes, text, i) == ""
    ensures i < |text| ==> RedactFrom(classes, text, i) != ""
    ensures i < |text| && RedactFrom(classes, text, i)[0] != text[i] ==>
      RedactFrom(classes, text, i)[0] == '[' && StartsAt(classes, text, i)
    ensures i < |text| && RedactFrom(classes, text, i)[0] != '[' ==>
      RedactFrom(classes, text, i) == [text[i]] + RedactFrom(classes, text, i + 1)
  {
  }

  /** A character kept in the output opens a path there only if it did in the input. */
  lemma KeptDoesNotOpen(classes: Classes, text: string, i: nat, before: string)
    requires Sound(classes) && i < |text| && !Opens(text, i)
    ensures var out := before + [text[i]] + RedactFrom(classes, text, i + 1);
      !Opens(out, |before|)
  {
    var out := before + [text[i]] + RedactFrom(classes, text, i + 1);
    var p := |before|;
    assert out[p] == text[i];
    NextOut(classes, text, i + 1);
    assert |out| > p + 1 ==> out[p + 1] == RedactFrom(classes, text, i + 1)[0];
    if Alpha(text[i]) && |out| > p + 2 && out[p + 1] == ':' {
      NextOut(classes, text, i + 2);
      assert out[p + 2..] == RedactFrom(classes, text, i + 2);
      assert out[p + 2] == RedactFrom(classes, text, i + 2)[0];
      if out[p + 2] == '/' || out[p + 2] == '\\' {
        NextOut(classes, text, i + 3);
        assert out[p + 3..] == RedactFrom(classes, text, i + 3);
        assert |out| > p + 3 ==> out[p + 3] == RedactFrom(classes, text, i + 3)[0];
      }
    }
  }

  lemma {:induction false} CleanFrom(classes: Classes, text: string, i: nat, before: string, p: nat)
    requires Sound(classes) && i <= |text| && Follows(classes, text, i, before)
    requires |before| <= p < |before + RedactFrom(classes, text, i)|
    ensures !StartsAt(classes, before + RedactFrom(classes, text, i), p)
    decreases |text| - i
  {
    var rest := RedactFrom(classes, text, i);
    var out := before + rest;
    if StartsAt(classes, text, i) {
      PathsAreNotEmpty(classes, text, i);
      var end := EndOf(classes, text, i);
      assert out == before + MARKER + RedactFrom(classes, text, end);
      if p < |before| + |MARKER| {
        assert out[|before|..|before| + |MARKER|] == MARKER;
        MarkerIsClean(classes, out, |before|, p);
      } else {
        CleanFrom(classes, text, end, before + MARKER, p);
      }
    } else {
      assert out == before + [text[i]] + RedactFrom(classes, text, i + 1);
      if p > |before| {
        CleanFrom(classes, text, i + 1, before + [text[i]], p);
      } else if !Opens(text, i) {
        KeptDoesNotOpen(classes, text, i, before);
      } else {
        assert Opener(text[i]) && !Terminator(classes, text[i]);
        assert !Boundary(classes, text, i) && i > 0 && out[p - 1] == text[i - 1];
      }
    }
  }

  /** No host path starts at a boundary anywhere in the output. */
  lemma NothingLeft(classes: Classes, text: string, p: nat)
    requires Sound(classes) && p < |Redacted(classes, text)|
    ensures !StartsAt(classes, Redacted(classes, text), p)
  {
    assert "" + Redacted(classes, text) == Redacted(classes, text);
    CleanFrom(classes, text, 0, "", p);
  }

  lemma {:induction false} CleanTextUnchanged(classes: Classes, text: string, i: nat)
    requires i <= |text| && forall k :: i <= k < |text| ==> !StartsAt(classes, text, k)
    ensures RedactFrom(classes, text, i) == text[i..]
    decreases |text| - i
  {
    if i < |text| { CleanTextUnchanged(classes, text, i + 1); }
  }

  /** Redacting twice changes nothing more. */
  lemma RedactIdempotent(classes: Classes, text: string)
    requires Sound(classes)
    ensures Redacted(classes, Redacted(classes, text)) == Redacted(classes, text)
  {
    var out := Redacted(classes, text);
    forall k: nat | k < |out| ensures !StartsAt(classes, out, k) { NothingLeft(classes, text, k); }
    CleanTextUnchanged(classes, out, 0);
  }

  // ----- the forms of a path, character by character -----

  predicate Slash(c: char) {
    c == '/' || c == '\\'
  }

  /** A drive with its separator, unless two slashes follow the colon as in a URL. */
  predicate Drive(text: string, i: nat) {
    && i + 2 < |text| && ('a' <= text[i] <= 'z' || 'A' <= text[i] <= 'Z') && text[i + 1] == ':' && Slash(text[i + 2])
    && !(i + 3 < |text| && text[i + 2] == '/' && text[i + 3] == '/')
  }

  predicate Home(text: string, i: nat) {
    i + 1 < |text| && text[i] == '~' && Slash(text[i + 1])
  }

  predicate Share(text: string, i: nat) {
    i + 1 < |text| && text[i] == '\\' && text[i + 1] == '\\'
  }

  /** One slash, and not two. */
  predicate Rooted(text: string, i: nat) {
    i < |text| && text[i] == '/' && !(i + 1 < |text| && text[i + 1] == '/')
  }

  /** At the beginning, or behind white space, a symbol, or punctuation other than a slash. */
  predicate Free(classes: Classes, text: string, i: nat)
    requires i < |text|
  {
    i == 0 || classes.space(text[i - 1]) || classes.symbol(text[i - 1]) ||
    (classes.punctuation(text[i - 1]) && !Slash(text[i - 1]))
  }

  predicate PathAt(classes: Classes, text: string, i: nat) {
    i < |text| && Free(classes, text, i) && (Drive(text, i) || Home(text, i) || Share(text, i) || Rooted(text, i))
  }

  /** The characters that end a path. */
  predicate Ends(classes: Classes, c: char) {
    classes.space(c) || c in {'"', '\'', ')', ']', '}', '>', ',', ';'}
  }

  lemma StartsExactly(classes: Classes, text: string, i: nat)
    requires i < |text|
    ensures StartsAt(classes, text, i) <==> PathAt(classes, text, i)
  {
  }

  lemma EndsExactly(classes: Classes, c: char)
    ensures Terminator(classes, c) <==> Ends(classes, c)
  {
    var marks := "\"')]}>,;";
    assert marks[0] == '"' && marks[1] == '\'' && marks[2] == ')' && marks[3] == ']';
    assert marks[4] == '}' && marks[5] == '>' && marks[6] == ',' && marks[7] == ';';
  }

  /** No drive, home, share or rooted path is left at the beginning or behind a boundary. */
  lemma NoFormLeft(classes: Classes, text: string, p: nat)
    requires Sound(classes)
    ensures !PathAt(classes, Redacted(classes, text), p)
  {
    if p < |Redacted(classes, text)| {
      NothingLeft(classes, text, p);
      StartsExactly(classes, Redacted(classes, text), p);
    }
  }

  /** Text without a path is left as it is. */
  lemma PathlessTextIsKept(classes: Classes, text: string)
    requires forall k: nat :: !PathAt(classes, text, k)
    ensures Redacted(classes, text) == text
  {
    forall k: nat | k < |text| ensures !StartsAt(classes, text, k) { StartsExactly(classes, text, k); }
    CleanTextUnchanged(classes, text, 0);
  }

  /** The first path of a text is replaced from its beginning up to what ends it, and what precedes it is kept. */
  lemma FirstPathIsReplaced(classes: Classes, text: string, i: nat, end: nat)
    requires i < end <= |text| && PathAt(classes, text, i) && forall k: nat :: k < i ==> !PathAt(classes, text, k)
    requires (forall k :: i <= k < end ==> !Ends(classes, text[k])) && (end < |text| ==> Ends(classes, text[end]))
    ensures Redacted(classes, text) == text[..i] + "[local path]" + RedactFrom(classes, text, end)
  {
    EndAt(classes, text, i, end);
    StartsExactly(classes, text, i);
    KeptBefore(classes, text, i, 0);
  }

  lemma {:induction false} EndAt(classes: Classes, text: string, i: nat, end: nat)
    requires i <= end <= |text|
    requires (forall k :: i <= k < end ==> !Ends(classes, text[k])) && (end < |text| ==> Ends(classes, text[end]))
    ensures EndOf(classes, text, i) == end
    decreases end - i
  {
    if i < |text| { EndsExactly(classes, text[i]); }
    if i < end { EndAt(classes, text, i + 1, end); }
  }

  lemma {:induction false} KeptBefore(classes: Classes, text: string, i: nat, from: nat)
    requires from <= i <= |text| && forall k: nat :: k < i ==> !PathAt(classes, text, k)
    ensures RedactFrom(classes, text, from) == text[from..i] + RedactFrom(classes, text, i)
    decreases i - from
  {
    if from < i {
      StartsExactly(classes, text, from);
      KeptBefore(classes, text, i, from + 1);
      assert text[from..i] == [text[from]] + text[from + 1..i];
    }
  }
}
