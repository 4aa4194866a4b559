/**
 The string handling shared by the form and the dashboard: whitespace
 stripping (Python's `str.strip()`), splitting a facilitator cell on the
 regular expression `,\s*`, and joining a facilitator selection with `", "`.

 The whitespace class is fixed to the six ASCII whitespace characters; it is
 used both for `strip()` and for the regex class `\s`.
 */
module Text {
  import opened Counting

  /** Space, tab, line feed, carriage return, vertical tab, form feed. */
  predicate IsSpace(c: char) {
    c == ' ' || c == '\t' || c == '\n' || c == '\r' || c == '\U{000B}' || c == '\U{000C}'
  }

  predicate AllSpace(s: string) {
    forall i :: 0 <= i < |s| ==> IsSpace(s[i])
  }

  predicate NoLeadingSpace(s: string) {
    |s| == 0 || !IsSpace(s[0])
  }

  predicate NoTrailingSpace(s: string) {
    |s| == 0 || !IsSpace(s[|s| - 1])
  }

  /** No whitespace at either end. */
  predicate IsStripped(s: string) {
    NoLeadingSpace(s) && NoTrailingSpace(s)
  }

  /** Length of the run of whitespace that starts `s`. */
  function LeadingSpace(s: string): (n: nat)
    ensures n <= |s| && AllSpace(s[..n])
    ensures n < |s| ==> !IsSpace(s[n])
  {
    if |s| > 0 && IsSpace(s[0]) then
      var n := 1 + LeadingSpace(s[1..]);
      assert s[..n] == [s[0]] + s[1..][..n - 1];
      n
    else 0
  }

  /** Where the run of whitespace that ends `s` begins. */
  function TrailingSpace(s: string): (n: nat)
    ensures n <= |s| && AllSpace(s[n..])
    ensures n > 0 ==> !IsSpace(s[n - 1])
  {
    if |s| > 0 && IsSpace(s[|s| - 1]) then
      var n := TrailingSpace(s[..|s| - 1]);
      assert s[n..] == s[..|s| - 1][n..] + [s[|s| - 1]];
      n
    else |s|
  }

  /** `s.lstrip()`. */
  function TrimLeft(s: string): (r: string)
    ensures |r| <= |s|
    ensures NoLeadingSpace(r)
  {
    s[LeadingSpace(s)..]
  }

  /** `s.rstrip()`. */
  function TrimRight(s: string): (r: string)
    ensures |r| <= |s|
    ensures NoTrailingSpace(r)
  {
    s[..TrailingSpace(s)]
  }

  /** `r` is `s` with some whitespace cut from its start and its end only. */
  ghost predicate CutFrom(s: string, r: string) {
    exists i :: 0 <= i <= |s| - |r| && r == s[i..i + |r|]
                && AllSpace(s[..i]) && AllSpace(s[i + |r|..])
  }

  /** `s.strip()`: no whitespace left at either end, and never longer than
      `s`; `StripCuts` says which piece of `s` it is. */
  function Strip(s: string): (r: string)
    ensures IsStripped(r)
    ensures |r| <= |s|
    ensures ',' !in s ==> ',' !in r
  {
    TrimRight(TrimLeft(s))
  }

  /** The stripped string is a contiguous piece of `s` with only whitespace
      cut on either side. */
  lemma StripCuts(s: string)
    ensures CutFrom(s, Strip(s))
  {
    var i := LeadingSpace(s);
    var t := s[i..];
    var r := TrimRight(t);
    assert r == Strip(s);
    assert r == s[i..i + |r|];
    assert s[i + |r|..] == t[TrailingSpace(t)..];
    assert 0 <= i <= |s| - |r| && AllSpace(s[..i]) && AllSpace(s[i + |r|..]);
  }

  /** Stripping changes a string exactly when it has whitespace at an end. */
  lemma StripFixedPoint(s: string)
    ensures Strip(s) == s <==> IsStripped(s)
  {
    if IsStripped(s) {
      assert TrimLeft(s) == s;
      assert TrimRight(s) == s;
    }
  }

  /** Stripping twice is stripping once. */
  lemma StripIdempotent(s: string)
    ensures Strip(Strip(s)) == Strip(s)
  {
    StripFixedPoint(Strip(s));
  }

  /** Index of the first occurrence of `c` in `s`. */
  function IndexOf(s: string, c: char): (i: nat)
    requires c in s
    ensures i < |s| && s[i] == c && c !in s[..i]
  {
    if s[0] == c then 0
    else
      var i := 1 + IndexOf(s[1..], c);
      assert s[..i] == [s[0]] + s[1..][..i - 1];
      i
  }

  lemma IndexOfFirst(s: string, c: char, j: nat)
    requires j < |s| && s[j] == c && c !in s[..j]
    ensures IndexOf(s, c) == j
  {
  }

  /** `re.split(",\s*", s)`: cut at every comma and drop the whitespace run
      that follows it. Nothing is dropped otherwise: `""` gives `[""]` and a
      trailing comma gives a final empty piece. */
  function Split(s: string): (r: seq<string>)
    ensures |r| >= 1
    ensures forall p <- r :: ',' !in p
    ensures forall p <- r[1..] :: NoLeadingSpace(p)
    ensures |r[0]| <= |s| && r[0] == s[..|r[0]|]
    ensures ',' !in s ==> r == [s]
    ensures ',' in s ==> |r[0]| < |s| && s[|r[0]|] == ','
    decreases |s|
  {
    if ',' !in s then [s]
    else
      var i := IndexOf(s, ',');
      var t := TrimLeft(s[i + 1..]);
      var rest := Split(t);
      assert NoLeadingSpace(rest[0]) by {
        if |rest[0]| > 0 { assert rest[0][0] == t[0]; }
      }
      var r := [s[..i]] + rest;
      assert r[1..] == rest;
      r
  }

  /** Every comma of the cell separates two pieces. */
  lemma {:induction false} SplitLength(s: string)
    ensures |Split(s)| == Count(s, ',') + 1
    decreases |s|
  {
    if ',' in s {
      var i := IndexOf(s, ',');
      var t := s[i + 1..];
      CountAfterFirst(s, i, ',');
      CountAfterFirst(t, LeadingSpace(t), ',');
      SplitLength(TrimLeft(t));
    }
  }

  /** Nothing before position `i` is `c`, so the count of `c` is decided
      from `i` on. */
  lemma CountAfterFirst(s: string, i: nat, c: char)
    requires i <= |s| && c !in s[..i]
    ensures Count(s, c) == Count(s[i..], c)
  {
    assert s == s[..i] + s[i..];
    CountAppend(s[..i], s[i..], c);
  }

  /** One step of the split: the piece before the first comma, then the
      split of what follows the comma and its whitespace. */
  lemma SplitStep(s: string, i: nat)
    requires i < |s| && s[i] == ',' && ',' !in s[..i]
    ensures Split(s) == [s[..i]] + Split(TrimLeft(s[i + 1..]))
  {
    IndexOfFirst(s, ',', i);
  }

  lemma TrimLeftClean(x: string)
    requires NoLeadingSpace(x)
    ensures TrimLeft(x) == x
  {
  }

  /** The whitespace run that starts `ws + rest` is exactly `ws`. */
  lemma {:induction false} LeadingSpaceRun(ws: string, rest: string)
    requires AllSpace(ws) && NoLeadingSpace(rest)
    ensures LeadingSpace(ws + rest) == |ws|
    decreases |ws|
  {
    if |ws| == 0 {
      assert ws + rest == rest;
    } else {
      assert (ws + rest)[1..] == ws[1..] + rest;
      LeadingSpaceRun(ws[1..], rest);
    }
  }

  /** `,\s*`: a comma followed by any run of whitespace, none included,
      separates a piece from the rest. */
  lemma SplitComma(a: string, ws: string, rest: string)
    requires ',' !in a && AllSpace(ws) && NoLeadingSpace(rest)
    ensures Split(a + "," + ws + rest) == [a] + Split(rest)
  {
    var s := a + "," + ws + rest;
    assert |a| < |s| && s[|a|] == ',' && s[..|a|] == a by {
      assert s[..|a|] == a;
    }
    assert TrimLeft(s[|a| + 1..]) == rest by {
      var t := s[|a| + 1..];
      assert t == ws + rest;
      LeadingSpaceRun(ws, rest);
      assert t[|ws|..] == rest;
    }
    SplitStep(s, |a|);
  }

  /** A comma followed by one space, as the join writes it. */
  lemma SplitCommaSpace(a: string, rest: string)
    requires ',' !in a && NoLeadingSpace(rest)
    ensures Split(a + ", " + rest) == [a] + Split(rest)
  {
    assert a + ", " + rest == a + "," + " " + rest;
    SplitComma(a, " ", rest);
  }

  /** The boundary cases the dashboard relies on: nothing is dropped. An
      empty cell is one empty piece, a trailing comma leaves a final empty
      piece, and two adjacent commas leave an empty piece between them. */
  lemma SplitEmpty()
    ensures Split("") == [""]
  {
  }

  lemma SplitTrailingComma(a: string)
    requires ',' !in a
    ensures Split(a + ",") == [a, ""]
  {
    var s := a + ",";
    assert s == a + "," + "" + "";
    SplitComma(a, "", "");
    SplitNoComma("");
  }

  lemma SplitDoubleComma(a: string, b: string)
    requires ',' !in a && ',' !in b && NoLeadingSpace(b)
    ensures Split(a + ",," + b) == [a, "", b]
  {
    var tail := "," + b;
    assert a + "," + "" + tail == a + ",," + b;
    SplitComma(a, "", tail);
    SplitLeadingComma(b);
  }

  /** A cell that starts with a comma has an empty first piece. */
  lemma SplitLeadingComma(b: string)
    requires ',' !in b && NoLeadingSpace(b)
    ensures Split("," + b) == ["", b]
  {
    assert "" + "," + "" + b == "," + b;
    SplitComma("", "", b);
    SplitNoComma(b);
  }

  /** A cell without a comma is a single piece. */
  lemma SplitNoComma(s: string)
    requires ',' !in s
    ensures Split(s) == [s]
  {
  }

  const Separator: string := ", "

  /** `", ".join(parts)`. */
  function Join(parts: seq<string>): (s: string)
    ensures |parts| == 1 ==> s == parts[0]
  {
    if |parts| == 0 then ""
    else if |parts| == 1 then parts[0]
    else parts[0] + Separator + Join(parts[1..])
  }

  /** A name that survives a join/split round trip unchanged. */
  predicate PlainName(n: string) {
    ',' !in n && IsStripped(n)
  }

  /** `[p.strip() for p in re.split(",\s*", cell)]`: the names a dashboard
      reads out of one facilitator cell. */
  function Names(cell: string): (r: seq<string>)
    ensures |r| == |Split(cell)|
    ensures forall i :: 0 <= i < |r| ==> IsStripped(r[i]) && ',' !in r[i]
    ensures forall i :: 0 <= i < |r| ==> r[i] == Strip(Split(cell)[i])
  {
    seq(|Split(cell)|, i requires 0 <= i < |Split(cell)| => Strip(Split(cell)[i]))
  }

  lemma {:induction false} JoinStartsClean(parts: seq<string>)
    requires |parts| >= 1 && NoLeadingSpace(parts[0])
    ensures NoLeadingSpace(Join(parts))
  {
    if |parts| > 1 && |parts[0]| == 0 {
      assert Join(parts)[0] == ',';
    } else if |parts| > 1 {
      assert Join(parts)[0] == parts[0][0];
    }
  }

  /** Splitting a joined list gives the list back, provided no part holds a
      comma and no part after the first starts with whitespace. */
  lemma {:induction false} SplitJoin(parts: seq<string>)
    requires |parts| >= 1
    requires forall p <- parts :: ',' !in p
    requires forall p <- parts[1..] :: NoLeadingSpace(p)
    ensures Split(Join(parts)) == parts
  {
    if |parts| > 1 {
      var rest := parts[1..];
      assert rest[1..] == parts[2..];
      JoinStartsClean(rest);
      SplitCommaSpace(parts[0], Join(rest));
      SplitJoin(rest);
      assert parts == [parts[0]] + rest;
    }
  }

  /** The facilitator round trip between form and dashboard: a non-empty
      selection of plain names is read back exactly. */
  lemma NamesJoin(names: seq<string>)
    requires |names| >= 1
    requires forall i :: 0 <= i < |names| ==> PlainName(names[i])
    ensures Names(Join(names)) == names
  {
    SplitJoin(names);
    var r := Names(Join(names));
    forall i | 0 <= i < |names|
      ensures r[i] == names[i]
    {
      StripFixedPoint(names[i]);
    }
  }
}
