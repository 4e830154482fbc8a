/** What a CGI variable is called and what it holds, byte by byte. */
module CgiLaws {
  import opened Basics
  import opened Cgi
  import opened Metadata
  import opened Text

  /** A variable is HTTP_ and the name in upper case, with underscores for dashes. */
  lemma VariableName(name: Bytes)
    requires Safe(name) && LowerCase(name)
    ensures |CgiName(name)| == |name| + 5 && CgiName(name)[..5] == [72, 84, 84, 80, 95]
    ensures forall i | 0 <= i < |name| ::
              CgiName(name)[i + 5] == if 97 <= name[i] <= 122 then name[i] - 32 else if name[i] == 45 then 95 else name[i]
  {
    assert HTTP == [72, 84, 84, 80, 95];
    forall i | 0 <= i < |name|
      ensures CgiName(name)[i + 5] == if 97 <= name[i] <= 122 then name[i] - 32 else if name[i] == 45 then 95 else name[i]
    {
      assert CgiName(name)[i + 5] == Mangled(name)[i];
    }
  }

  lemma {:induction false} SplitAppend(a: Bytes, c: byte, b: Bytes)
    ensures Split(a + [c] + b, c) == Split(a, c) + Split(b, c)
    decreases |a|
  {
    hide Split, Before, After;
    if c !in a {
      SplitHead(a, c, b);
      SplitNothing(a, c);
    } else {
      var first, rest := Before(a, c), After(a, c);
      CutAt(a, c);
      SplitAppend(rest, c, b);
      SplitHead(first, c, rest);
      SplitHead(first, c, rest + [c] + b);
      Regroup(first, [c], rest, b);
      assert [first] + (Split(rest, c) + Split(b, c)) == ([first] + Split(rest, c)) + Split(b, c);
    }
  }

  lemma SplitNothing(a: Bytes, c: byte)
    requires c !in a
    ensures Split(a, c) == [a]
  {
  }

  lemma Regroup(first: Bytes, sep: Bytes, rest: Bytes, b: Bytes)
    ensures (first + sep + rest) + sep + b == first + sep + (rest + sep + b)
  {
  }

  lemma CutAt(s: Bytes, b: byte)
    requires b in s
    ensures s == Before(s, b) + [b] + After(s, b) && |After(s, b)| < |s| && b !in Before(s, b)
  {
  }

  /** The lines as they stand in a joined value: each but the first behind a space. */
  function Spaced(lines: seq<Bytes>): seq<Bytes>
  {
    if |lines| <= 1 then lines else Spaced(lines[..|lines| - 1]) + [[32] + lines[|lines| - 1]]
  }

  lemma {:induction false} JoinSplits(lines: seq<Bytes>, c: byte)
    requires |lines| > 0 && forall l | l in lines :: c !in l
    requires c != 32
    ensures Split(JoinLines(lines, [c, 32]), c) == Spaced(lines)
    decreases |lines|
  {
    hide Split;
    var n := |lines| - 1;
    if n == 0 {
      SplitNothing(lines[0], c);
      assert lines == [lines[0]];
    } else {
      JoinSplits(lines[..n], c);
      var before, last := JoinLines(lines[..n], [c, 32]), lines[n];
      assert before + [c, 32] + last == before + [c] + ([32] + last);
      SplitAppend(before, c, [32] + last);
      SplitNothing([32] + last, c);
    }
  }

  lemma Separators(name: Bytes)
    ensures name in SINGLETONS ==> Separator(name).None?
    ensures name !in SINGLETONS ==> Separator(name) == Some(if name == Ascii("cookie") then [59, 32] else [44, 32])
  {
    assert Ascii("; ") == [59, 32] && Ascii(", ") == [44, 32];
  }

  /** What a field's variable holds. A field of which only the first line counts holds that line; the lines of any
      other, cookies on semicolons and the rest on commas, come apart again where they were joined. */
  lemma ValueKeepsLines(f: Field)
    requires |f.values| > 0
    ensures f.name in SINGLETONS ==> FieldValue(f) == f.values[0]
    ensures var c: byte := if f.name == Ascii("cookie") then 59 else 44;
            f.name !in SINGLETONS && (forall l | l in f.values :: c !in l) ==> Split(FieldValue(f), c) == Spaced(f.values)
  {
    hide JoinLines, Split, Spaced;
    Separators(f.name);
    var c: byte := if f.name == Ascii("cookie") then 59 else 44;
    if f.name !in SINGLETONS && forall l | l in f.values :: c !in l {
      JoinSplits(f.values, c);
    }
  }
}
