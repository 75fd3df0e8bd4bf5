/** The regular-expression matcher of `user/grep.c`: literals, `.`, `c*`, a leading `^` and a final `$`.

    The matcher works on NUL-terminated strings through moving pointers. A pointer is modelled by the
    suffix it points to; `At` is the only way to read a character and demands that the terminator is
    never passed. The meaning of a pattern is given without reference to the matcher: a list of items,
    and a cut of the text into one segment per item. */
module Grep {
  /** The characters before the terminating NUL. */
  type CString = s: string | forall i :: 0 <= i < |s| ==> s[i] != '\0' witness ""

  /** `p[i]` in C: the terminator may be read, nothing after it. */
  function At(s: CString, i: nat): char
    requires i <= |s|
  {
    if i < |s| then s[i] else '\0'
  }

  datatype Item = One(c: char) | Many(c: char) | End

  function Parse(re: CString): seq<Item>
    decreases |re|
  {
    if re == "" then []
    else if At(re, 1) == '*' then [Many(re[0])] + Parse(re[2..])
    else if re == "$" then [End]
    else [One(re[0])] + Parse(re[1..])
  }

  predicate Accepts(c: char, x: char) {
    c == '.' || c == x
  }

  ghost predicate AllAccepted(c: char, seg: string) {
    forall i :: 0 <= i < |seg| ==> Accepts(c, seg[i])
  }

  ghost predicate Fits(item: Item, seg: string) {
    match item
    case One(c) => |seg| == 1 && Accepts(c, seg[0])
    case Many(c) => AllAccepted(c, seg)
    case End => seg == ""
  }

  ghost function Flatten(segs: seq<string>): string {
    if segs == [] then "" else segs[0] + Flatten(segs[1..])
  }

  /** `segs` cuts a prefix of `text` (all of it if there is an `End`) into one segment per item. */
  ghost predicate Cut(items: seq<Item>, text: string, segs: seq<string>) {
    && |segs| == |items|
    && (forall i :: 0 <= i < |items| ==> Fits(items[i], segs[i]))
    && Flatten(segs) <= text
    && (End in items ==> Flatten(segs) == text)
  }

  ghost predicate MatchesPrefix(items: seq<Item>, text: string) {
    exists segs :: Cut(items, text, segs)
  }

  ghost predicate StarMatches(c: char, items: seq<Item>, text: string) {
    exists k :: 0 <= k <= |text| && AllAccepted(c, text[..k]) && MatchesPrefix(items, text[k..])
  }

  /** What `match` promises: an anchored pattern matches at the start, any other one somewhere. */
  ghost predicate Matches(re: CString, text: CString) {
    if At(re, 0) == '^' then MatchesPrefix(Parse(re[1..]), text)
    else exists j :: 0 <= j <= |text| && MatchesPrefix(Parse(re), text[j..])
  }

  lemma NoItems(text: string)
    ensures MatchesPrefix([], text)
  {
    assert Cut([], text, []);
  }

  lemma OnlyEnd(text: string)
    ensures MatchesPrefix([End], text) <==> text == ""
  {
    if text == "" {
      assert Cut([End], text, [""]);
    }
    if MatchesPrefix([End], text) {
      var segs :| Cut([End], text, segs);
      assert Fits([End][0], segs[0]);
      assert segs == [""] && Flatten([""]) == "" + Flatten([]);
      assert End in [End];
    }
  }

  /** Prepending an item other than `End` prepends a fitting segment, and nothing else. */
  lemma PrependItem(item: Item, items: seq<Item>, text: string)
    requires item != End
    ensures MatchesPrefix([item] + items, text) <==>
            exists k :: 0 <= k <= |text| && Fits(item, text[..k]) && MatchesPrefix(items, text[k..])
  {
    var all := [item] + items;
    if MatchesPrefix(all, text) {
      var segs :| Cut(all, text, segs);
      var k := |segs[0]|;
      assert Fits(all[0], segs[0]);
      assert segs[0] == text[..k];
      forall i | 0 <= i < |items| ensures Fits(items[i], segs[1..][i]) {
        assert Fits(all[i + 1], segs[i + 1]);
      }
      assert Flatten(segs) == segs[0] + Flatten(segs[1..]);
      assert Flatten(segs[1..]) <= text[k..];
      assert Cut(items, text[k..], segs[1..]);
    }
    if k :| 0 <= k <= |text| && Fits(item, text[..k]) && MatchesPrefix(items, text[k..]) {
      var rest :| Cut(items, text[k..], rest);
      var segs := [text[..k]] + rest;
      assert segs[1..] == rest;
      assert text == text[..k] + text[k..];
      assert Cut(all, text, segs);
    }
  }

  lemma PrependOne(c: char, items: seq<Item>, text: string)
    ensures MatchesPrefix([One(c)] + items, text) <==>
            text != "" && Accepts(c, text[0]) && MatchesPrefix(items, text[1..])
  {
    PrependItem(One(c), items, text);
    if text != "" && Accepts(c, text[0]) && MatchesPrefix(items, text[1..]) {
      assert Fits(One(c), text[..1]);
    }
  }

  /** Decides whether `re` matches at the beginning of `text`, by the recursion of the source. */
  method MatchHere(re: CString, text: CString) returns (r: bool)
    ensures r <==> MatchesPrefix(Parse(re), text)
    decreases |re|, 0
  {
    if At(re, 0) == '\0' {
      NoItems(text);
      return true;
    }
    if At(re, 1) == '*' {
      PrependItem(Many(re[0]), Parse(re[2..]), text);
      r := MatchStar(re[0], re[2..], text);
      return;
    }
    if At(re, 0) == '$' && At(re, 1) == '\0' {
      assert re == "$";
      OnlyEnd(text);
      return At(text, 0) == '\0';
    }
    PrependOne(re[0], Parse(re[1..]), text);
    if At(text, 0) != '\0' && (At(re, 0) == '.' || At(re, 0) == At(text, 0)) {
      r := MatchHere(re[1..], text[1..]);
      return;
    }
    return false;
  }

  /** `matchstar`: tries the rest of the pattern after zero, one, two, ... characters accepted by `c`. */
  method MatchStar(c: char, re: CString, text: CString) returns (r: bool)
    ensures r <==> StarMatches(c, Parse(re), text)
    decreases |re|, 1
  {
    var k := 0;
    while true
      invariant 0 <= k <= |text|
      invariant AllAccepted(c, text[..k])
      invariant forall j :: 0 <= j < k ==> !MatchesPrefix(Parse(re), text[j..])
      decreases |text| - k
    {
      var here := MatchHere(re, text[k..]);
      if here {
        return true;
      }
      if !(At(text, k) != '\0' && (At(text, k) == c || c == '.')) {
        forall j | k < j <= |text| ensures !AllAccepted(c, text[..j]) {
          assert text[..j][k] == text[k];
        }
        return false;
      }
      k := k + 1;
    }
  }

  /** `match`: returns 1 exactly when the pattern matches under its declarative meaning. */
  method Match(re: CString, text: CString) returns (r: bool)
    ensures r <==> Matches(re, text)
  {
    if At(re, 0) == '^' {
      r := MatchHere(re[1..], text);
      return;
    }
    var j := 0;
    while true
      invariant 0 <= j <= |text|
      invariant forall i :: 0 <= i < j ==> !MatchesPrefix(Parse(re), text[i..])
      decreases |text| - j
    {
      var here := MatchHere(re, text[j..]);
      if here {
        return true;
      }
      if At(text, j) == '\0' {
        return false;
      }
      j := j + 1;
    }
  }
}
