// Removing the common indentation of a text, internal/undent/undent.go.
module Undent {
  import opened Text

  // ---------------------------------------------------------------- lines

  function Lines(text: string): (lines: seq<string>)
    ensures lines != []
  {
    Split(text, '\n')
  }

  function Unlines(lines: seq<string>): string {
    Join(lines, "\n")
  }

  // ---------------------------------------------------------------- indentation

  // `^[ \t]*`
  function Indent(line: string): (indent: string)
    ensures indent <= line
    ensures forall i :: 0 <= i < |indent| ==> IsBlank(indent[i])
    ensures |indent| < |line| ==> !IsBlank(line[|indent|])
  {
    if line != "" && IsBlank(line[0]) then [line[0]] + Indent(line[1..]) else ""
  }

  predicate IsBlankLine(line: string) {
    Indent(line) == line
  }

  // `^[ \t]+$` replaced by nothing.
  function Cleaned(line: string): string {
    if IsBlankLine(line) then "" else line
  }

  // The indents of the non-blank lines.
  function Indents(lines: seq<string>): seq<string> {
    if lines == [] then []
    else if IsBlankLine(lines[0]) then Indents(lines[1..])
    else [Indent(lines[0])] + Indents(lines[1..])
  }

  // The search for the margin: `margin` so far against the indents to come.
  function Search(margin: string, indents: seq<string>): string
    decreases |indents|
  {
    if indents == [] then margin
    else if margin <= indents[0] then Search(margin, indents[1..])
    else if indents[0] <= margin then Search(indents[0], indents[1..])
    else ""
  }

  function Margin(indents: seq<string>): string {
    if indents == [] then "" else Search(indents[0], indents[1..])
  }

  // Some indent is not comparable with the margin found before it.
  predicate Clashes(margin: string, indents: seq<string>)
    decreases |indents|
  {
    indents != [] &&
    if margin <= indents[0] then Clashes(margin, indents[1..])
    else if indents[0] <= margin then Clashes(indents[0], indents[1..])
    else true
  }

  predicate IsCommon(p: string, indents: seq<string>) {
    forall i :: 0 <= i < |indents| ==> p <= indents[i]
  }

  lemma {:induction false} SearchFinds(margin: string, indents: seq<string>)
    ensures Search(margin, indents) <= margin && IsCommon(Search(margin, indents), indents)
    ensures Search(margin, indents) == "" || Search(margin, indents) in [margin] + indents
    ensures !Clashes(margin, indents) ==> Search(margin, indents) in [margin] + indents
    ensures Clashes(margin, indents) ==> Search(margin, indents) == ""
    decreases |indents|
  {
    if indents != [] {
      if margin <= indents[0] {
        SearchFinds(margin, indents[1..]);
      } else if indents[0] <= margin {
        SearchFinds(indents[0], indents[1..]);
      }
      var m := Search(margin, indents);
      forall i | 0 <= i < |indents|
        ensures m <= indents[i]
      {
        assert i > 0 ==> indents[i] == indents[1..][i - 1];
      }
    }
  }

  // The margin is common to all indents, and empty or one of them.
  lemma MarginIsCommon(indents: seq<string>)
    ensures IsCommon(Margin(indents), indents)
    ensures Margin(indents) == "" || Margin(indents) in indents
  {
    if indents != [] {
      SearchFinds(indents[0], indents[1..]);
      forall i | 0 <= i < |indents|
        ensures Margin(indents) <= indents[i]
      {
        assert i > 0 ==> indents[i] == indents[1..][i - 1];
      }
      assert [indents[0]] + indents[1..] == indents;
    }
  }

  // The shortest of the indents, the first of them if there are several.
  function Shortest(indent: string, indents: seq<string>): string
    decreases |indents|
  {
    if indents == [] then indent
    else Shortest(if |indents[0]| < |indent| then indents[0] else indent, indents[1..])
  }

  predicate Comparable(a: string, b: string) {
    a <= b || b <= a
  }

  // A clash is with the shortest of the indents before it, so the order of the lines
  // matters: an indent that is comparable with that one may differ from others.
  lemma {:induction false} ClashesIff(indent: string, indents: seq<string>)
    ensures Clashes(indent, indents) <==>
      exists k :: 0 <= k < |indents| && !Comparable(indents[k], Shortest(indent, indents[..k]))
    decreases |indents|
  {
    if indents != [] {
      var first, rest := indents[0], indents[1..];
      var shorter := if |first| < |indent| then first else indent;
      assert Shortest(indent, indents[..0]) == indent;
      if Comparable(first, indent) {
        ClashesIff(shorter, rest);
        forall k | 0 <= k < |rest|
          ensures rest[k] == indents[k + 1] && Shortest(shorter, rest[..k]) == Shortest(indent, indents[..k + 1])
        {
          assert indents[..k + 1][1..] == rest[..k];
        }
        forall k | 1 <= k < |indents|
          ensures indents[k] == rest[k - 1] && Shortest(indent, indents[..k]) == Shortest(shorter, rest[..k - 1])
        {
          assert indents[..k][1..] == rest[..k - 1];
        }
      }
    }
  }

  ghost predicate IsLongestCommon(p: string, indents: seq<string>) {
    IsCommon(p, indents) && forall q :: IsCommon(q, indents) ==> q <= p
  }

  // Some line is not indented, or one starts with a space and another with a tab.
  predicate NothingShared(indents: seq<string>) {
    exists i, j :: 0 <= i < |indents| && 0 <= j < |indents| && (indents[i] == "" || !(indents[i][..1] <= indents[j]))
  }

  lemma NothingSharedIff(indents: seq<string>)
    requires indents != []
    ensures IsLongestCommon("", indents) <==> NothingShared(indents)
  {
    if NothingShared(indents) {
      var i, j :| 0 <= i < |indents| && 0 <= j < |indents| && (indents[i] == "" || !(indents[i][..1] <= indents[j]));
      forall q | IsCommon(q, indents)
        ensures q <= ""
      {
        assert q <= indents[i] && q <= indents[j];
      }
    } else {
      var q := indents[0][..1];
      assert IsCommon(q, indents);
      assert !(q <= "");
    }
  }

  // No indent clashes with the shortest of those before it.
  predicate NoClash(indents: seq<string>) {
    forall k :: 0 < k < |indents| ==> Comparable(indents[k], Shortest(indents[0], indents[1..k]))
  }

  lemma NoClashIff(indents: seq<string>)
    requires indents != []
    ensures NoClash(indents) <==> !Clashes(indents[0], indents[1..])
  {
    var rest := indents[1..];
    ClashesIff(indents[0], rest);
    forall k | 0 <= k < |rest|
      ensures rest[k] == indents[k + 1] && rest[..k] == indents[1..k + 1]
    {
    }
    forall k | 0 < k < |indents|
      ensures indents[k] == rest[k - 1] && indents[1..k] == rest[..k - 1]
    {
    }
  }

  // The margin is all the common leading whitespace unless an indent clashes with the
  // shortest before it; then nothing is removed, and that is right only if nothing is shared.
  lemma MarginIsLongestIff(indents: seq<string>)
    requires indents != []
    ensures IsLongestCommon(Margin(indents), indents) <==> NoClash(indents) || NothingShared(indents)
    ensures !NoClash(indents) ==> Margin(indents) == ""
  {
    MarginIsCommon(indents);
    SearchFinds(indents[0], indents[1..]);
    NothingSharedIff(indents);
    NoClashIff(indents);
    if NoClash(indents) {
      assert [indents[0]] + indents[1..] == indents;
      var k :| 0 <= k < |indents| && indents[k] == Margin(indents);
    } else {
      assert Margin(indents) == "";
    }
    if NothingShared(indents) {
      var q := Margin(indents);
      assert q <= "";
    }
  }

  // The order decides: the same three indents with and without a clash.
  lemma OrderMatters()
    ensures Margin([" \t", " ", "  "]) == " " && Margin([" \t", "  ", " "]) == ""
    ensures IsLongestCommon(" ", [" \t", "  ", " "])
  {
    var a, b := [" \t", " ", "  "], [" \t", "  ", " "];
    assert a[1..] == [" ", "  "] && [" ", "  "][1..] == ["  "] && ["  "][1..] == [];
    assert Search(" \t", [" ", "  "]) == Search(" ", ["  "]) == Search(" ", []);
    assert "  "[1] != " \t"[1];
    assert b[1..] == ["  ", " "] && !("  " <= " \t") && !(" \t" <= "  ");
    forall q | IsCommon(q, b)
      ensures q <= " "
    {
      assert q <= b[2];
    }
  }

  // ---------------------------------------------------------------- the whole text

  function CleanedAll(lines: seq<string>): (r: seq<string>)
    ensures |r| == |lines| && forall i :: 0 <= i < |r| ==> r[i] == Cleaned(lines[i])
  {
    seq(|lines|, i requires 0 <= i < |lines| => Cleaned(lines[i]))
  }

  // `^margin` removed.
  function Shifted(line: string, margin: string): string {
    if margin <= line then line[|margin|..] else line
  }

  function ShiftedAll(lines: seq<string>, margin: string): (r: seq<string>)
    ensures |r| == |lines| && forall i :: 0 <= i < |r| ==> r[i] == Shifted(lines[i], margin)
  {
    seq(|lines|, i requires 0 <= i < |lines| => Shifted(lines[i], margin))
  }

  function UndentLines(lines: seq<string>): (r: seq<string>)
    ensures |r| == |lines|
  {
    ShiftedAll(CleanedAll(lines), Margin(Indents(CleanedAll(lines))))
  }

  function Undent(text: string): string {
    Unlines(UndentLines(Lines(text)))
  }

  lemma {:induction false} IndentsOf(lines: seq<string>, i: nat)
    requires i < |lines| && !IsBlankLine(lines[i])
    ensures Indent(lines[i]) in Indents(lines)
  {
    if i > 0 {
      assert lines[i] == lines[1..][i - 1];
      IndentsOf(lines[1..], i - 1);
    }
  }

  lemma {:induction false} IndentsFrom(lines: seq<string>, x: string)
    requires x in Indents(lines)
    ensures exists i :: 0 <= i < |lines| && !IsBlankLine(lines[i]) && Indent(lines[i]) == x
  {
    if IsBlankLine(lines[0]) || Indent(lines[0]) != x {
      IndentsFrom(lines[1..], x);
      var i :| 0 <= i < |lines[1..]| && !IsBlankLine(lines[1..][i]) && Indent(lines[1..][i]) == x;
      assert lines[i + 1] == lines[1..][i];
    }
  }

  lemma {:induction false} IndentUnique(line: string, n: nat)
    requires n <= |line| && (forall i :: 0 <= i < n ==> IsBlank(line[i])) && (n < |line| ==> !IsBlank(line[n]))
    ensures Indent(line) == line[..n]
  {
    if n > 0 {
      IndentUnique(line[1..], n - 1);
      assert [line[0]] + line[1..][..n - 1] == line[..n];
    }
  }

  lemma ShiftedIndent(line: string, margin: string)
    requires !IsBlankLine(line) && margin <= Indent(line)
    ensures margin <= line && line == margin + Shifted(line, margin)
    ensures !IsBlankLine(Shifted(line, margin)) && Indent(line) == margin + Indent(Shifted(line, margin))
  {
    var indent, rest := Indent(line), line[|margin|..];
    assert |indent| < |line|;
    assert forall i :: 0 <= i < |indent| - |margin| ==> rest[i] == indent[i + |margin|];
    IndentUnique(rest, |indent| - |margin|);
  }

  // Line by line: blank lines become empty, all others lose exactly the margin.
  lemma LineByLine(lines: seq<string>, i: nat)
    requires i < |lines|
    ensures
      var m, r := Margin(Indents(CleanedAll(lines))), UndentLines(lines);
      && (IsBlankLine(lines[i]) ==> r[i] == "")
      && (!IsBlankLine(lines[i]) ==> lines[i] == m + r[i] && !IsBlankLine(r[i]) && Indent(lines[i]) == m + Indent(r[i]))
  {
    var clean := CleanedAll(lines);
    var m := Margin(Indents(clean));
    if !IsBlankLine(lines[i]) {
      MarginIsCommon(Indents(clean));
      IndentsOf(clean, i);
      var k :| 0 <= k < |Indents(clean)| && Indents(clean)[k] == Indent(lines[i]);
      ShiftedIndent(lines[i], m);
    }
  }

  lemma UndentLinesAreLines(lines: seq<string>)
    requires Without(lines, '\n')
    ensures Without(UndentLines(lines), '\n')
  {
  }

  // A text's lines after undenting are its lines undented.
  lemma UndentByLines(text: string)
    ensures Lines(Undent(text)) == UndentLines(Lines(text))
  {
    SplitWithout(text, '\n');
    UndentLinesAreLines(Lines(text));
    SplitJoin(UndentLines(Lines(text)), '\n');
  }

  // What is undented has no margin left.
  lemma NoMarginLeft(lines: seq<string>)
    ensures var r := UndentLines(lines); CleanedAll(r) == r && Margin(Indents(r)) == ""
  {
    var r, clean := UndentLines(lines), CleanedAll(lines);
    var m := Margin(Indents(clean));
    forall i | 0 <= i < |r|
      ensures Cleaned(r[i]) == r[i]
    {
      LineByLine(lines, i);
    }
    assert CleanedAll(r) == r;
    MarginIsCommon(Indents(clean));
    if m == "" {
      forall i | 0 <= i < |r|
        ensures r[i] == clean[i]
      {
      }
      assert r == clean;
    } else {
      IndentsFrom(clean, m);
      var i :| 0 <= i < |clean| && !IsBlankLine(clean[i]) && Indent(clean[i]) == m;
      LineByLine(lines, i);
      IndentsOf(r, i);
      MarginIsCommon(Indents(r));
      var k :| 0 <= k < |Indents(r)| && Indents(r)[k] == Indent(r[i]);
      assert |Indent(lines[i])| == |m| + |Indent(r[i])|;
    }
  }

  lemma Idempotent(text: string)
    ensures Undent(Undent(text)) == Undent(text)
  {
    var r := UndentLines(Lines(text));
    UndentByLines(text);
    NoMarginLeft(Lines(text));
    assert ShiftedAll(r, "") == r;
  }

  // ---------------------------------------------------------------- the function

  // strings.ReplaceAll; an empty `was` matches before every character and at the end.
  function ReplaceAll(s: string, was: string, to: string): string
    decreases |s|
  {
    if was == "" then (if s == "" then to else to + [s[0]] + ReplaceAll(s[1..], was, to))
    else if s == "" then ""
    else if was <= s then to + ReplaceAll(s[|was|..], was, to)
    else [s[0]] + ReplaceAll(s[1..], was, to)
  }

  predicate NoneBefore(s: string, was: string, n: nat) {
    forall k: nat :: k < n ==> !OccursAt(was, s, k)
  }

  // The text cut at every occurrence of `was`, from the left and without overlaps: no
  // occurrence starts inside a part. An empty `was` occurs before every character and at
  // the end.
  predicate IsCut(s: string, was: string, parts: seq<string>) {
    if was == "" then
      && |parts| == |s| + 2 && parts[0] == "" && parts[|s| + 1] == ""
      && forall i :: 0 <= i < |s| ==> parts[i + 1] == [s[i]]
    else
      && parts != [] && Join(parts, was) == s
      && forall i :: 0 <= i < |parts| ==>
           NoneBefore(parts[i] + (if i < |parts| - 1 then was else ""), was, |parts[i]|)
  }

  lemma PrefixOccurs(s: string, was: string)
    ensures was <= s <==> OccursAt(was, s, 0)
  {
    if OccursAt(was, s, 0) {
      assert s[..|was|] == was;
    }
  }

  lemma OccursShifted(was: string, s: string, k: nat)
    requires s != ""
    ensures OccursAt(was, s[1..], k) <==> OccursAt(was, s, k + 1)
  {
    if OccursAt(was, s, k + 1) {
      assert forall j :: 0 <= j < |was| ==> was[j] == s[k + 1 + j];
    }
  }

  lemma OccursWithin(was: string, a: string, b: string, k: nat)
    requires k + |was| <= |a|
    ensures OccursAt(was, a + b, k) <==> OccursAt(was, a, k)
  {
    if OccursAt(was, a + b, k) {
      assert forall j :: 0 <= j < |was| ==> was[j] == (a + b)[k + j];
    }
  }

  lemma NoneBeforeRest(s: string, was: string, n: nat)
    requires NoneBefore(s, was, n) && 0 < n <= |s|
    ensures NoneBefore(s[1..], was, n - 1)
  {
    forall k: nat | k < n - 1
      ensures !OccursAt(was, s[1..], k)
    {
      OccursShifted(was, s, k);
    }
  }

  lemma ReplaceHere(was: string, rest: string, to: string)
    requires was != ""
    ensures ReplaceAll(was + rest, was, to) == to + ReplaceAll(rest, was, to)
  {
    assert (was + rest)[|was|..] == rest;
  }

  lemma NotHere(part: string, was: string, rest: string)
    requires NoneBefore(part + was, was, |part|) && part != ""
    ensures !(was <= part + was + rest)
  {
    PrefixOccurs(part + was + rest, was);
    OccursWithin(was, part + was, rest, 0);
  }

  lemma Associative(a: string, b: string, c: string)
    ensures a + (b + c) == a + b + c
  {
  }

  lemma {:induction false} ReplaceFirst(part: string, was: string, rest: string, to: string)
    requires was != "" && NoneBefore(part + was, was, |part|)
    ensures ReplaceAll(part + was + rest, was, to) == part + (to + ReplaceAll(rest, was, to))
    decreases |part|
  {
    if part == "" {
      ReplaceHere(was, rest, to);
      assert part + was + rest == was + rest;
    } else {
      NotHere(part, was, rest);
      NoneBeforeRest(part + was, was, |part|);
      assert (part + was)[1..] == part[1..] + was;
      assert (part + was + rest)[1..] == part[1..] + was + rest;
      ReplaceFirst(part[1..], was, rest, to);
      Associative([part[0]], part[1..], to + ReplaceAll(rest, was, to));
      assert [part[0]] + part[1..] == part;
    }
  }

  lemma {:induction false} ReplaceNone(s: string, was: string, to: string)
    requires was != "" && NoneBefore(s, was, |s|)
    ensures ReplaceAll(s, was, to) == s
    decreases |s|
  {
    if s != "" {
      PrefixOccurs(s, was);
      NoneBeforeRest(s, was, |s|);
      ReplaceNone(s[1..], was, to);
    }
  }

  lemma CutRest(s: string, was: string, parts: seq<string>)
    requires was != "" && IsCut(s, was, parts) && |parts| > 1
    ensures IsCut(Join(parts[1..], was), was, parts[1..])
    ensures s == parts[0] + was + Join(parts[1..], was) && NoneBefore(parts[0] + was, was, |parts[0]|)
  {
    forall i | 0 <= i < |parts| - 1
      ensures NoneBefore(parts[1..][i] + (if i < |parts| - 2 then was else ""), was, |parts[1..][i]|)
    {
      assert parts[1..][i] == parts[i + 1];
    }
  }

  lemma {:induction false} EmptyReplaced(s: string, parts: seq<string>, to: string)
    requires |parts| == |s| + 1 && parts[|s|] == "" && forall i :: 0 <= i < |s| ==> parts[i] == [s[i]]
    ensures ReplaceAll(s, "", to) == to + Join(parts, to)
    decreases |s|
  {
    if s != "" {
      EmptyReplaced(s[1..], parts[1..], to);
    }
  }

  // Replacing joins the parts again with `to`.
  lemma {:induction false} ReplaceAllIs(s: string, was: string, to: string, parts: seq<string>)
    requires IsCut(s, was, parts)
    ensures ReplaceAll(s, was, to) == Join(parts, to)
    decreases |parts|
  {
    if was == "" {
      EmptyReplaced(s, parts[1..], to);
    } else if |parts| == 1 {
      assert parts[0] + "" == s;
      ReplaceNone(s, was, to);
    } else {
      CutRest(s, was, parts);
      ReplaceFirst(parts[0], was, Join(parts[1..], was), to);
      ReplaceAllIs(Join(parts[1..], was), was, to, parts[1..]);
      Associative(parts[0], to, Join(parts[1..], to));
    }
  }

  // Where `was` first occurs; |s| if nowhere.
  function FirstOf(s: string, was: string): (i: nat)
    ensures i <= |s| && NoneBefore(s, was, i) && (i < |s| ==> OccursAt(was, s, i))
  {
    if s == "" || OccursAt(was, s, 0) then 0
    else
      var i := FirstOf(s[1..], was) + 1;
      FirstOfRest(s, was, i - 1);
      i
  }

  lemma FirstOfRest(s: string, was: string, i: nat)
    requires s != "" && !OccursAt(was, s, 0) && i < |s| && NoneBefore(s[1..], was, i)
    requires i + 1 < |s| ==> OccursAt(was, s[1..], i)
    ensures NoneBefore(s, was, i + 1) && (i + 1 < |s| ==> OccursAt(was, s, i + 1))
  {
    forall k: nat | 0 < k <= i + 1
      ensures OccursAt(was, s, k) <==> OccursAt(was, s[1..], k - 1)
    {
      OccursShifted(was, s, k - 1);
    }
  }

  lemma CutMore(part: string, was: string, rest: string, later: seq<string>)
    requires was != "" && NoneBefore(part + was, was, |part|) && IsCut(rest, was, later)
    ensures IsCut(part + was + rest, was, [part] + later)
  {
    var parts := [part] + later;
    assert parts[1..] == later;
    forall i | 0 <= i < |parts|
      ensures NoneBefore(parts[i] + (if i < |parts| - 1 then was else ""), was, |parts[i]|)
    {
      if i > 0 {
        assert parts[i] == later[i - 1];
      }
    }
  }

  lemma CutOut(s: string, was: string, i: nat)
    requires OccursAt(was, s, i)
    ensures s == s[..i] + was + s[i + |was|..]
  {
    assert s[i..i + |was|] == was;
  }

  lemma NoneBeforeFirst(s: string, was: string, i: nat)
    requires i + |was| <= |s| && s == s[..i] + was + s[i + |was|..] && NoneBefore(s, was, i)
    ensures NoneBefore(s[..i] + was, was, i)
  {
    forall k: nat | k < i
      ensures !OccursAt(was, s[..i] + was, k)
    {
      OccursWithin(was, s[..i] + was, s[i + |was|..], k);
    }
  }

  // Every text has such a cut.
  lemma {:induction false} Cuts(s: string, was: string) returns (parts: seq<string>)
    ensures IsCut(s, was, parts)
    decreases |s|
  {
    if was == "" {
      parts := [""] + seq(|s|, i requires 0 <= i < |s| => [s[i]]) + [""];
    } else {
      var i := FirstOf(s, was);
      if i == |s| {
        assert s + "" == s;
        parts := [s];
      } else {
        CutOut(s, was, i);
        NoneBeforeFirst(s, was, i);
        var later := Cuts(s[i + |was|..], was);
        CutMore(s[..i], was, s[i + |was|..], later);
        parts := [s[..i]] + later;
      }
    }
  }

  lemma ReplaceAllIff(s: string, was: string, to: string, r: string)
    ensures r == ReplaceAll(s, was, to) <==> exists parts :: IsCut(s, was, parts) && r == Join(parts, to)
  {
    var parts := Cuts(s, was);
    ReplaceAllIs(s, was, to, parts);
    if parts :| IsCut(s, was, parts) && r == Join(parts, to) {
      ReplaceAllIs(s, was, to, parts);
    }
  }

  function Replaced(text: string, replacements: seq<string>): string
    decreases |replacements|
  {
    if |replacements| < 2 then text
    else Replaced(ReplaceAll(text, replacements[0], replacements[1]), replacements[2..])
  }

  method It(text: string, replacements: seq<string>) returns (r: string)
    ensures r == Replaced(Undent(text), replacements)
  {
    var lines := CleanedAll(Lines(text));
    var indents := Indents(lines);
    var margin := "";
    for i := 0 to |indents|
      invariant i == 0 ==> margin == ""
      invariant i > 0 ==> Search(margin, indents[i..]) == Margin(indents)
    {
      assert indents[i..][0] == indents[i] && indents[i..][1..] == indents[i + 1..];
      if i == 0 {
        margin := indents[0];
      } else if margin <= indents[i] {
        continue;
      } else if indents[i] <= margin {
        margin := indents[i];
      } else {
        margin := "";
        break;
      }
    }
    assert margin == Margin(indents);
    if margin != "" {
      lines := ShiftedAll(lines, margin);
    } else {
      assert ShiftedAll(lines, "") == lines;
    }
    r := Unlines(lines);
    var left := replacements;
    while |left| >= 2
      invariant Replaced(r, left) == Replaced(Undent(text), replacements)
    {
      r, left := ReplaceAll(r, left[0], left[1]), left[2..];
    }
  }
}
