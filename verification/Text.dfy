/** Splitting, joining and trimming of text, as Go's strings package does it. */
module Text {

  /** Unicode white space, on which Go's unicode.IsSpace and Swift's whitespacesAndNewlines agree. */
  predicate IsSpace(c: char) {
    var n := c as int;
    || 0x09 <= n <= 0x0D || n == 0x20 || n == 0x85 || n == 0xA0 || n == 0x1680
    || 0x2000 <= n <= 0x200A || n == 0x2028 || n == 0x2029 || n == 0x202F || n == 0x205F || n == 0x3000
  }

  function TrimLeft(s: string): string {
    if s != "" && IsSpace(s[0]) then TrimLeft(s[1..]) else s
  }

  function TrimRight(s: string): string {
    if s != "" && IsSpace(s[|s| - 1]) then TrimRight(s[..|s| - 1]) else s
  }

  function TrimSpace(s: string): string {
    TrimRight(TrimLeft(s))
  }

  predicate HasPrefix(s: string, prefix: string) { prefix <= s }

  /** Neither end is white space. */
  predicate Trimmed(s: string) {
    s != "" ==> !IsSpace(s[0]) && !IsSpace(s[|s| - 1])
  }

  lemma TrimmedStays(s: string)
    requires Trimmed(s)
    ensures TrimSpace(s) == s
  {
  }

  lemma {:induction false} TrimLeftEnds(s: string)
    ensures TrimLeft(s) != "" ==> !IsSpace(TrimLeft(s)[0])
    ensures forall c :: c in TrimLeft(s) ==> c in s
  {
    if s != "" && IsSpace(s[0]) {
      TrimLeftEnds(s[1..]);
    }
  }

  lemma {:induction false} TrimRightEnds(s: string)
    ensures TrimRight(s) <= s
    ensures TrimRight(s) != "" ==> !IsSpace(TrimRight(s)[|TrimRight(s)| - 1])
  {
    if s != "" && IsSpace(s[|s| - 1]) {
      TrimRightEnds(s[..|s| - 1]);
    }
  }

  lemma TrimSpaceTrims(s: string)
    ensures Trimmed(TrimSpace(s))
    ensures forall c :: c in TrimSpace(s) ==> c in s
  {
    TrimLeftEnds(s);
    TrimRightEnds(TrimLeft(s));
  }

  predicate AllSpace(s: string) { forall c :: c in s ==> IsSpace(c) }

  lemma {:induction false} TrimLeftTakes(s: string) returns (before: string)
    ensures s == before + TrimLeft(s) && AllSpace(before)
  {
    before := "";
    if s != "" && IsSpace(s[0]) {
      var b := TrimLeftTakes(s[1..]);
      before := [s[0]] + b;
    }
  }

  lemma {:induction false} TrimRightTakes(s: string) returns (after: string)
    ensures s == TrimRight(s) + after && AllSpace(after)
  {
    after := "";
    if s != "" && IsSpace(s[|s| - 1]) {
      var a := TrimRightTakes(s[..|s| - 1]);
      after := a + [s[|s| - 1]];
    }
  }

  /** Trimming takes white space off both ends, all of it and nothing else. */
  lemma TrimSpaceTakes(s: string) returns (before: string, after: string)
    ensures s == before + TrimSpace(s) + after && AllSpace(before) && AllSpace(after) && Trimmed(TrimSpace(s))
  {
    before := TrimLeftTakes(s);
    after := TrimRightTakes(TrimLeft(s));
    TrimSpaceTrims(s);
  }

  // ----- Lines -----

  function Split(s: string, sep: char): (parts: seq<string>)
    ensures parts != []
  {
    if s == "" then [""]
    else if s[0] == sep then [""] + Split(s[1..], sep)
    else var rest := Split(s[1..], sep); [[s[0]] + rest[0]] + rest[1..]
  }

  function Join(parts: seq<string>, sep: string): string {
    if parts == [] then ""
    else if |parts| == 1 then parts[0]
    else parts[0] + sep + Join(parts[1..], sep)
  }

  /** A part holds no separator. */
  predicate Free(parts: seq<string>, sep: char) {
    forall p :: p in parts ==> sep !in p
  }

  lemma {:induction false} SplitIsFree(s: string, sep: char)
    ensures Free(Split(s, sep), sep)
  {
    if s != "" {
      SplitIsFree(s[1..], sep);
      var rest := Split(s[1..], sep);
      assert rest[0] in rest;
      forall p | p in Split(s, sep)
        ensures sep !in p
      {
        if p !in rest && s[0] != sep {
          assert p == [s[0]] + rest[0];
        }
      }
    }
  }

  lemma {:induction false} SplitFirst(a: string, b: string, sep: char)
    requires sep !in a
    ensures Split(a + [sep] + b, sep) == [a] + Split(b, sep)
  {
    var s := a + [sep] + b;
    if a == "" {
      assert s[1..] == b;
    } else {
      assert s[1..] == a[1..] + [sep] + b;
      SplitFirst(a[1..], b, sep);
      assert [a[0]] + a[1..] == a;
    }
  }

  /** Splitting undoes joining followed by a closing separator. */
  lemma {:induction false} SplitJoined(parts: seq<string>, sep: char)
    requires parts != [] && Free(parts, sep)
    ensures Split(Join(parts, [sep]) + [sep], sep) == parts + [""]
  {
    assert parts[0] in parts;
    if |parts| == 1 {
      assert Join(parts, [sep]) + [sep] == parts[0] + [sep] + "";
      SplitFirst(parts[0], "", sep);
    } else {
      var rest := Join(parts[1..], [sep]) + [sep];
      assert Join(parts, [sep]) + [sep] == parts[0] + [sep] + rest;
      SplitFirst(parts[0], rest, sep);
      SplitJoined(parts[1..], sep);
    }
  }

  /** Joining undoes splitting, for every text. */
  lemma {:induction false} JoinUndoesSplit(s: string, sep: char)
    ensures Join(Split(s, sep), [sep]) == s
  {
    if s != "" {
      JoinUndoesSplit(s[1..], sep);
      var parts, rest := Split(s, sep), Split(s[1..], sep);
      if s[0] == sep {
        assert parts[1..] == rest;
      } else {
        assert parts[1..] == rest[1..];
      }
    }
  }

  lemma {:induction false} JoinConcat(a: seq<string>, b: seq<string>, sep: string)
    requires a != [] && b != []
    ensures Join(a + b, sep) == Join(a, sep) + sep + Join(b, sep)
  {
    assert (a + b)[1..] == a[1..] + b;
    if |a| > 1 {
      JoinConcat(a[1..], b, sep);
    }
  }

  // ----- Line by line -----

  /** Every line replaced by the lines f makes of it. */
  function Each(f: string -> seq<string>, lines: seq<string>): seq<string> {
    if lines == [] then [] else Each(f, lines[..|lines| - 1]) + f(lines[|lines| - 1])
  }

  lemma EachOne(f: string -> seq<string>, line: string)
    ensures Each(f, [line]) == f(line)
  {
    assert [line][..0] == [];
  }

  lemma {:induction false} EachSnoc(f: string -> seq<string>, lines: seq<string>, i: nat)
    requires i < |lines|
    ensures Each(f, lines[..i + 1]) == Each(f, lines[..i]) + f(lines[i])
  {
    assert lines[..i + 1][..i] == lines[..i];
  }

  lemma {:induction false} EachConcat(f: string -> seq<string>, a: seq<string>, b: seq<string>)
    ensures Each(f, a + b) == Each(f, a) + Each(f, b)
    decreases |b|
  {
    if b == [] {
      assert a + b == a;
    } else {
      var all, front, last := a + b, b[..|b| - 1], b[|b| - 1];
      assert all[..|all| - 1] == a + front && all[|all| - 1] == last;
      calc {
        Each(f, all);
        Each(f, a + front) + f(last);
        { EachConcat(f, a, front); }
        (Each(f, a) + Each(f, front)) + f(last);
        Each(f, a) + (Each(f, front) + f(last));
      }
    }
  }

  /** Two replacements in a row are one, if they are on every single line. */
  lemma {:induction false} EachEach(f: string -> seq<string>, g: string -> seq<string>, h: string -> seq<string>,
                                   lines: seq<string>)
    requires forall line :: line in lines ==> Each(g, f(line)) == h(line)
    ensures Each(g, Each(f, lines)) == Each(h, lines)
  {
    if lines != [] {
      var front, last := lines[..|lines| - 1], lines[|lines| - 1];
      assert last in lines && forall l :: l in front ==> l in lines;
      EachEach(f, g, h, front);
      EachConcat(g, Each(f, front), f(last));
    }
  }

  lemma {:induction false} EachMember(f: string -> seq<string>, lines: seq<string>, p: string)
    requires p in Each(f, lines)
    ensures exists line :: line in lines && p in f(line)
  {
    var front, last := lines[..|lines| - 1], lines[|lines| - 1];
    if p in f(last) {
      assert last in lines;
    } else {
      EachMember(f, front, p);
      assert forall l :: l in front ==> l in lines;
    }
  }
}
