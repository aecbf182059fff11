/** The JavaScript String and Array operations the decoders are built on, with
    the semantics the ECMAScript standard gives them: `trim`, `indexOf`,
    `split` with a string separator, `replace` and `replaceAll` with a string
    pattern and an empty replacement, and the `pop`/`shift` pair. Strings are
    sequences of characters; the UTF-16 code-unit view of JavaScript strings is
    not modelled. */
module JsString {
  import opened Wrappers

  /** The WhiteSpace and LineTerminator characters of ECMAScript, the set that
      `trim`, `parseInt` and `parseFloat` skip. */
  predicate IsSpace(c: char) {
    || c == '\t' || c == '\n' || c == '\U{000B}' || c == '\U{000C}' || c == '\r' || c == ' '
    || c == '\U{00A0}' || c == '\U{1680}' || ('\U{2000}' <= c <= '\U{200A}')
    || c == '\U{2028}' || c == '\U{2029}' || c == '\U{202F}' || c == '\U{205F}'
    || c == '\U{3000}' || c == '\U{FEFF}'
  }

  predicate AllSpace(s: string) {
    forall i :: 0 <= i < |s| ==> IsSpace(s[i])
  }

  /** `s.trimStart()`: drops the leading white space. */
  function TrimStart(s: string): string
  {
    if |s| > 0 && IsSpace(s[0]) then TrimStart(s[1..]) else s
  }

  /** `s.trimEnd()`: drops the trailing white space. */
  function TrimEnd(s: string): string
  {
    if |s| > 0 && IsSpace(s[|s| - 1]) then TrimEnd(s[..|s| - 1]) else s
  }

  /** `s.trim()`. */
  function Trim(s: string): string
  {
    TrimEnd(TrimStart(s))
  }

  /** trimStart drops the leading white space and nothing else. */
  lemma {:induction false} TrimStartSpec(s: string)
    ensures var r := TrimStart(s);
            && |r| <= |s| && r == s[|s| - |r|..]
            && AllSpace(s[..|s| - |r|])
            && (r == [] || !IsSpace(r[0]))
  {
    if |s| > 0 && IsSpace(s[0]) {
      TrimStartSpec(s[1..]);
      var r := TrimStart(s[1..]);
      assert s[1..][..|s| - 1 - |r|] == s[1..|s| - |r|];
      assert s[..|s| - |r|] == [s[0]] + s[1..|s| - |r|];
    }
  }

  /** trimEnd drops the trailing white space and nothing else. */
  lemma {:induction false} TrimEndSpec(s: string)
    ensures var r := TrimEnd(s);
            && |r| <= |s| && r == s[..|r|]
            && AllSpace(s[|r|..])
            && (r == [] || !IsSpace(r[|r| - 1]))
  {
    if |s| > 0 && IsSpace(s[|s| - 1]) {
      TrimEndSpec(s[..|s| - 1]);
      var r := TrimEnd(s[..|s| - 1]);
      assert s[..|s| - 1][|r|..] == s[|r|..|s| - 1];
      assert s[|r|..] == s[|r|..|s| - 1] + [s[|s| - 1]];
    }
  }

  /** trim drops the white space at both ends and nothing else: what remains
      is a slice of the input with white space only around it. */
  lemma TrimSpec(s: string)
    ensures var r := Trim(s);
            && (r == [] || (!IsSpace(r[0]) && !IsSpace(r[|r| - 1])))
            && exists i :: 0 <= i <= |s| - |r| && r == s[i..i + |r|] && AllSpace(s[..i]) && AllSpace(s[i + |r|..])
  {
    var t := TrimStart(s);
    var r := TrimEnd(t);
    TrimStartSpec(s);
    TrimEndSpec(t);
    var i := |s| - |t|;
    assert r == s[i..i + |r|];
    assert s[i + |r|..] == t[|r|..];
    if r != [] {
      assert r[0] == t[0];
    }
  }

  /** A string with no white space at either end is its own trim. */
  lemma {:induction false} TrimUnchanged(s: string)
    requires s == [] || (!IsSpace(s[0]) && !IsSpace(s[|s| - 1]))
    ensures Trim(s) == s
  {
    assert TrimStart(s) == s;
  }

  predicate OccursAt(s: string, pat: string, i: int) {
    0 <= i && i + |pat| <= |s| && s[i..i + |pat|] == pat
  }

  /** The first occurrence of `pat` in `s` at or after `k`. */
  function IndexFrom(s: string, pat: string, k: nat): (r: Option<nat>)
    ensures r.Some? ==> k <= r.value && r.value + |pat| <= |s|
    decreases |s| - k
  {
    if k + |pat| > |s| then None
    else if s[k..k + |pat|] == pat then Some(k)
    else IndexFrom(s, pat, k + 1)
  }

  /** `s.indexOf(pat)`, with None for -1. */
  function IndexOf(s: string, pat: string): (r: Option<nat>)
    ensures r.Some? ==> r.value + |pat| <= |s|
  {
    IndexFrom(s, pat, 0)
  }

  /** IndexFrom finds the first occurrence at or after `k`, and None means
      there is none. */
  lemma {:induction false} IndexFromSpec(s: string, pat: string, k: nat)
    ensures var r := IndexFrom(s, pat, k);
            && (r.Some? ==> k <= r.value && OccursAt(s, pat, r.value))
            && (r.Some? ==> forall j :: k <= j < r.value ==> !OccursAt(s, pat, j))
            && (r.None? ==> forall j :: k <= j ==> !OccursAt(s, pat, j))
    decreases |s| - k
  {
    if k + |pat| <= |s| && s[k..k + |pat|] != pat {
      IndexFromSpec(s, pat, k + 1);
    }
  }

  /** IndexOf finds the first occurrence, and None means there is none. */
  lemma IndexOfSpec(s: string, pat: string)
    ensures var r := IndexOf(s, pat);
            && (r.Some? ==> OccursAt(s, pat, r.value))
            && (r.Some? ==> forall j :: 0 <= j < r.value ==> !OccursAt(s, pat, j))
            && (r.None? ==> forall j :: !OccursAt(s, pat, j))
  {
    IndexFromSpec(s, pat, 0);
  }

  /** What IndexOf finds is an occurrence. */
  lemma IndexOfFound(s: string, pat: string)
    requires IndexOf(s, pat).Some?
    ensures OccursAt(s, pat, IndexOf(s, pat).value)
  {
    IndexOfSpec(s, pat);
  }

  predicate Contains(s: string, pat: string) {
    IndexOf(s, pat).Some?
  }

  /** `s.split(sep)` for a non-empty separator: the pieces between the
      occurrences of `sep`, found left to right without overlap. */
  function Split(s: string, sep: string): (r: seq<string>)
    requires |sep| > 0
    ensures |r| >= 1
    decreases |s|
  {
    match IndexOf(s, sep)
    case None => [s]
    case Some(i) => [s[..i]] + Split(s[i + |sep|..], sep)
  }

  /** `parts.join(sep)`, the inverse of Split. */
  function Join(parts: seq<string>, sep: string): string
  {
    if |parts| == 0 then ""
    else if |parts| == 1 then parts[0]
    else parts[0] + sep + Join(parts[1..], sep)
  }

  /** Joining a piece in front of non-empty pieces puts a separator between. */
  lemma JoinCons(p: string, parts: seq<string>, sep: string)
    requires |parts| > 0
    ensures Join([p] + parts, sep) == p + sep + Join(parts, sep)
  {
    assert ([p] + parts)[1..] == parts;
  }

  /** A string is the text before an occurrence, the occurrence and the text after. */
  lemma Reassemble(s: string, pat: string, i: int)
    requires OccursAt(s, pat, i)
    ensures s == s[..i] + pat + s[i + |pat|..]
  {
    assert s == s[..i] + s[i..i + |pat|] + s[i + |pat|..];
  }

  /** Joining the pieces of a split with the same separator restores the string. */
  lemma {:induction false} JoinSplit(s: string, sep: string)
    requires |sep| > 0
    ensures Join(Split(s, sep), sep) == s
    decreases |s|
  {
    match IndexOf(s, sep)
    case None =>
    case Some(i) =>
      var rest := s[i + |sep|..];
      JoinSplit(rest, sep);
      JoinCons(s[..i], Split(rest, sep), sep);
      IndexOfFound(s, sep);
      Reassemble(s, sep, i);
  }

  /** No piece of a split contains the separator. */
  lemma {:induction false} SplitPiecesFree(s: string, sep: string)
    requires |sep| > 0
    ensures forall p :: p in Split(s, sep) ==> !Contains(p, sep)
    decreases |s|
  {
    match IndexOf(s, sep)
    case None =>
    case Some(i) =>
      SplitPiecesFree(s[i + |sep|..], sep);
      IndexOfSpec(s, sep);
      IndexOfSpec(s[..i], sep);
      forall j | OccursAt(s[..i], sep, j) ensures false {
        assert s[..i][j..j + |sep|] == s[j..j + |sep|];
        assert OccursAt(s, sep, j);
      }
  }

  /** A string that does not contain the separator splits into itself. */
  lemma SplitFree(s: string, sep: string)
    requires |sep| > 0 && !Contains(s, sep)
    ensures Split(s, sep) == [s]
  {
  }

  /** `arr.pop(); arr.shift();`: the pieces strictly between the first and the
      last one. */
  function Interior<T>(parts: seq<T>): (r: seq<T>)
    ensures |parts| >= 2 ==> |r| == |parts| - 2 && forall k :: 0 <= k < |r| ==> r[k] == parts[k + 1]
    ensures |parts| < 2 ==> r == []
  {
    if |parts| >= 2 then parts[1..|parts| - 1] else []
  }

  /** `arr.pop()` for its effect on the array: the last element, if any, goes. */
  function DropLast<T>(parts: seq<T>): (r: seq<T>)
    ensures |r| == if |parts| == 0 then 0 else |parts| - 1
    ensures forall k :: 0 <= k < |r| ==> r[k] == parts[k]
  {
    if |parts| == 0 then [] else parts[..|parts| - 1]
  }

  /** `s.replace(pat, '')`: the first occurrence of `pat`, if there is one, is cut out. */
  function ReplaceFirst(s: string, pat: string): (r: string)
    ensures IndexOf(s, pat).None? ==> r == s
    ensures IndexOf(s, pat).Some? ==>
      var i := IndexOf(s, pat).value; |r| == |s| - |pat| && r == s[..i] + s[i + |pat|..]
  {
    match IndexOf(s, pat)
    case None => s
    case Some(i) => s[..i] + s[i + |pat|..]
  }

  /** `s.replaceAll(pat, '')`: every occurrence found scanning left to right
      without overlap is cut out. */
  function ReplaceAll(s: string, pat: string): (r: string)
    ensures |r| <= |s|
    decreases |s|
  {
    if |pat| == 0 then s
    else
      match IndexOf(s, pat)
      case None => s
      case Some(i) => s[..i] + ReplaceAll(s[i + |pat|..], pat)
  }

  function Concat(parts: seq<string>): string
  {
    if |parts| == 0 then "" else parts[0] + Concat(parts[1..])
  }

  /** Cutting out every occurrence is the same as splitting at the
      occurrences and gluing the pieces back without the separator. */
  lemma {:induction false} ReplaceAllIsSplitConcat(s: string, pat: string)
    requires |pat| > 0
    ensures ReplaceAll(s, pat) == Concat(Split(s, pat))
    decreases |s|
  {
    match IndexOf(s, pat)
    case None =>
    case Some(i) =>
      ReplaceAllIsSplitConcat(s[i + |pat|..], pat);
      assert Split(s, pat) == [s[..i]] + Split(s[i + |pat|..], pat);
  }

  /** ReplaceAll leaves a string without the pattern alone and shortens every
      other one. */
  lemma ReplaceAllShortens(s: string, pat: string)
    requires |pat| > 0
    ensures ReplaceAll(s, pat) == s <==> !Contains(s, pat)
  {
    if Contains(s, pat) {
      var i := IndexOf(s, pat).value;
      assert |ReplaceAll(s[i + |pat|..], pat)| <= |s| - i - |pat|;
    }
  }

  predicate EndsWith(s: string, tail: string) {
    |tail| <= |s| && s[|s| - |tail|..] == tail
  }

  /** The last piece of a split is what follows the last separator: a suffix. */
  lemma {:induction false} SplitLastIsSuffix(s: string, sep: string)
    requires |sep| > 0
    ensures var parts := Split(s, sep); EndsWith(s, parts[|parts| - 1])
    decreases |s|
  {
    match IndexOf(s, sep)
    case None =>
    case Some(i) =>
      var rest := s[i + |sep|..];
      SplitLastIsSuffix(rest, sep);
      var parts := Split(s, sep);
      assert parts == [s[..i]] + Split(rest, sep);
      assert parts[|parts| - 1] == Split(rest, sep)[|Split(rest, sep)| - 1];
  }

  /** Cutting out the first occurrence of a pattern whose last character
      never occurs in `tail` leaves `tail` at the end of the string. */
  lemma ReplaceFirstKeepsTail(s: string, pat: string, tail: string)
    requires |pat| > 0 && EndsWith(s, tail) && pat[|pat| - 1] !in tail
    ensures EndsWith(ReplaceFirst(s, pat), tail)
  {
    match IndexOf(s, pat)
    case None =>
    case Some(i) =>
      IndexOfFound(s, pat);
      OccurrenceBeforeTail(s, pat, i, tail);
      CutKeepsTail(s, i, |pat|, tail, ReplaceFirst(s, pat));
  }

  /** An occurrence of `pat` ends before a tail that lacks its last character. */
  lemma OccurrenceBeforeTail(s: string, pat: string, i: nat, tail: string)
    requires |pat| > 0 && EndsWith(s, tail) && OccursAt(s, pat, i) && pat[|pat| - 1] !in tail
    ensures i + |pat| <= |s| - |tail|
  {
    var e := i + |pat| - 1;
    assert s[e] == pat[|pat| - 1] by {
      assert s[i..i + |pat|][|pat| - 1] == s[e];
    }
    var p := |s| - |tail|;
    assert s[p..] == tail;
    forall j | p <= j < |s| ensures s[j] in tail {
      assert s[j] == tail[j - p];
    }
  }

  /** Cutting `n` characters at `i`, all before the tail, keeps the tail. */
  lemma CutKeepsTail(s: string, i: nat, n: nat, tail: string, r: string)
    requires EndsWith(s, tail) && i + n <= |s| - |tail| && r == s[..i] + s[i + n..]
    ensures EndsWith(r, tail)
  {
    assert r[|r| - |tail|..] == s[i + n..][|s| - i - n - |tail|..];
  }
}
