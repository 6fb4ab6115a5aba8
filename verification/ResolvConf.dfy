/** The rewriting of resolv.conf on Linux, and what restoring undoes. */
module ResolvConf {
  import opened Text

  const DASH := 0x2014 as char
  const MARKER := "# gecit: DoH DNS active " + [DASH] + " original lines commented below"
  const LOCAL := "nameserver 127.0.0.1"
  const FALLBACK := "nameserver 8.8.8.8"
  const SAVED := "# gecit-saved: "
  const GECIT := "# gecit"
  const NAMESERVER := "nameserver"

  // ----- What becomes of a line -----

  function SetLine(line: string): seq<string> {
    var trimmed := TrimSpace(line);
    if trimmed == "" || HasPrefix(trimmed, GECIT) then []
    else if HasPrefix(trimmed, NAMESERVER) then [SAVED + trimmed]
    else [line]
  }

  function RestoreLine(line: string): seq<string> {
    var trimmed := TrimSpace(line);
    if HasPrefix(trimmed, SAVED) then [trimmed[|SAVED|..]]
    else if HasPrefix(trimmed, GECIT) then []
    else if trimmed == LOCAL then []
    else if trimmed != "" then [line]
    else []
  }

  /** A file of these lines. */
  function File(lines: seq<string>): string {
    Join(lines, "\n") + "\n"
  }

  function OrFallback(lines: seq<string>): (r: seq<string>)
    ensures r != []
  {
    if lines == [] then [FALLBACK] else lines
  }

  /** The lines Set puts in front. */
  function Head(): seq<string> { [MARKER, LOCAL] }

  function Set(orig: string): string {
    File(Head() + Each(SetLine, Split(orig, '\n')))
  }

  function Restore(data: string): string {
    File(OrFallback(Each(RestoreLine, Split(data, '\n'))))
  }

  // ----- The program: loops appending to `lines` -----

  method SetSystemDns(orig: string) returns (written: string)
    ensures written == Set(orig)
  {
    var lines: seq<string> := [];
    lines := lines + [MARKER];
    lines := lines + [LOCAL];
    var parts := Split(orig, '\n');
    var i := 0;
    while i < |parts|
      invariant 0 <= i <= |parts|
      invariant lines == Head() + Each(SetLine, parts[..i])
    {
      EachSnoc(SetLine, parts, i);
      var line := parts[i];
      i := i + 1;
      var trimmed := TrimSpace(line);
      if trimmed == "" || HasPrefix(trimmed, GECIT) {
        assert SetLine(line) == [];
        continue;
      }
      if HasPrefix(trimmed, NAMESERVER) {
        assert SetLine(line) == [SAVED + trimmed];
        lines := lines + [SAVED + trimmed];
      } else {
        assert SetLine(line) == [line];
        lines := lines + [line];
      }
    }
    assert parts[..i] == parts;
    written := Join(lines, "\n") + "\n";
  }

  method RestoreSystemDns(data: string) returns (written: string)
    ensures written == Restore(data)
  {
    var lines: seq<string> := [];
    var parts := Split(data, '\n');
    var i := 0;
    while i < |parts|
      invariant 0 <= i <= |parts|
      invariant lines == Each(RestoreLine, parts[..i])
    {
      EachSnoc(RestoreLine, parts, i);
      var line := parts[i];
      i := i + 1;
      var trimmed := TrimSpace(line);
      if HasPrefix(trimmed, SAVED) {
        lines := lines + [trimmed[|SAVED|..]];
      } else if HasPrefix(trimmed, GECIT) {
        continue;
      } else if trimmed == LOCAL {
        continue;
      } else if trimmed != "" {
        lines := lines + [line];
      }
    }
    assert parts[..i] == parts;
    if |lines| == 0 {
      lines := lines + [FALLBACK];
    }
    written := Join(lines, "\n") + "\n";
  }

  // ----- The normal form of a file -----

  predicate Dropped(line: string) {
    TrimSpace(line) == "" || HasPrefix(TrimSpace(line), GECIT)
  }

  predicate IsNameserver(line: string) {
    HasPrefix(TrimSpace(line), NAMESERVER)
  }

  /** Blank and gecit lines go, nameserver lines are trimmed, every other line stays as it is. */
  function KeptLine(line: string): seq<string> {
    if Dropped(line) then []
    else if IsNameserver(line) then [TrimSpace(line)]
    else [line]
  }

  function Normal(orig: string): string {
    File(OrFallback(Each(KeptLine, Split(orig, '\n'))))
  }

  // The nameserver lines, trimmed; the lines that are neither blank nor gecit's nor nameservers;
  // the nameservers recorded in saved lines.

  function Nameserver(line: string): seq<string> {
    if IsNameserver(line) then [TrimSpace(line)] else []
  }

  function Other(line: string): seq<string> {
    if !Dropped(line) && !IsNameserver(line) then [line] else []
  }

  function Saved(line: string): seq<string> {
    if HasPrefix(TrimSpace(line), SAVED) then [TrimSpace(line)[|SAVED|..]] else []
  }

  // ----- Lines, one by one -----

  lemma Prefixes(s: string)
    ensures HasPrefix(s, SAVED) ==> HasPrefix(s, GECIT)
    ensures HasPrefix(s, NAMESERVER) ==> !HasPrefix(s, GECIT) && s != ""
    ensures HasPrefix(LOCAL, NAMESERVER) && HasPrefix(FALLBACK, NAMESERVER)
  {
    assert GECIT == SAVED[..7];
    if HasPrefix(s, NAMESERVER) {
      assert s[0] == 'n';
    }
  }

  /** A line with its nameserver saved, and what the three readings make of it. */
  lemma SavedLine(trimmed: string)
    requires Trimmed(trimmed) && HasPrefix(trimmed, NAMESERVER)
    ensures RestoreLine(SAVED + trimmed) == [trimmed] && Saved(SAVED + trimmed) == [trimmed]
    ensures Nameserver(SAVED + trimmed) == [] && Other(SAVED + trimmed) == []
  {
    TrimmedStays(SAVED + trimmed);
    assert (SAVED + trimmed)[|SAVED|..] == trimmed;
    assert HasPrefix(SAVED + trimmed, SAVED);
    Prefixes(SAVED + trimmed);
  }

  lemma AfterSetLine(line: string)
    ensures Each(RestoreLine, SetLine(line)) == KeptLine(line)
    ensures Each(Nameserver, SetLine(line)) == []
    ensures Each(Other, SetLine(line)) == Other(line)
    ensures Each(Saved, SetLine(line)) == Nameserver(line)
  {
    var trimmed := TrimSpace(line);
    TrimSpaceTrims(line);
    Prefixes(trimmed);
    if !Dropped(line) {
      var l := SetLine(line)[0];
      EachOne(RestoreLine, l);
      EachOne(Nameserver, l);
      EachOne(Other, l);
      EachOne(Saved, l);
      if IsNameserver(line) {
        SavedLine(trimmed);
      }
    }
  }

  lemma AfterKeptLine(line: string)
    ensures Each(KeptLine, KeptLine(line)) == KeptLine(line)
    ensures Each(Nameserver, KeptLine(line)) == Nameserver(line)
    ensures Each(Other, KeptLine(line)) == Other(line)
  {
    var trimmed := TrimSpace(line);
    TrimSpaceTrims(line);
    TrimmedStays(trimmed);
    Prefixes(trimmed);
    if !Dropped(line) {
      var l := KeptLine(line)[0];
      assert TrimSpace(l) == trimmed;
      EachOne(KeptLine, l);
      EachOne(Nameserver, l);
      EachOne(Other, l);
      if IsNameserver(line) {
        assert KeptLine(l) == [l] && Nameserver(l) == [l] && Other(l) == [];
      } else {
        assert KeptLine(l) == [l] && Nameserver(l) == [] && Other(l) == [l];
      }
    }
  }

  /** The marker is seen by nobody. */
  lemma MarkerLine()
    ensures RestoreLine(MARKER) == [] && KeptLine(MARKER) == [] && SetLine(MARKER) == []
    ensures Nameserver(MARKER) == [] && Other(MARKER) == [] && Saved(MARKER) == []
    ensures '\n' !in MARKER
  {
    MarkerPrefixes();
    TrimmedStays(MARKER);
    Prefixes(MARKER);
  }

  lemma MarkerPrefixes()
    ensures HasPrefix(MARKER, GECIT) && !HasPrefix(MARKER, SAVED) && Trimmed(MARKER) && '\n' !in MARKER
  {
    assert MARKER[7] == ':' && SAVED[7] == '-';
  }

  lemma LocalLine()
    ensures RestoreLine(LOCAL) == [] && KeptLine(LOCAL) == [LOCAL]
    ensures Nameserver(LOCAL) == [LOCAL] && Other(LOCAL) == [] && Saved(LOCAL) == []
    ensures '\n' !in LOCAL
  {
    TrimmedStays(LOCAL);
    Prefixes(LOCAL);
  }

  lemma FallbackLine()
    ensures KeptLine(FALLBACK) == [FALLBACK] && '\n' !in FALLBACK && FALLBACK != LOCAL
    ensures Nameserver(FALLBACK) == [FALLBACK] && Other(FALLBACK) == []
  {
    TrimmedStays(FALLBACK);
    Prefixes(FALLBACK);
    assert LOCAL[11] == '1' && FALLBACK[11] == '8';
  }

  lemma BlankLine()
    ensures RestoreLine("") == [] && KeptLine("") == [] && SetLine("") == []
            && Nameserver("") == [] && Other("") == [] && Saved("") == []
  {
  }

  lemma EachHead(f: string -> seq<string>)
    ensures Each(f, Head()) == f(MARKER) + f(LOCAL)
  {
    assert Head() == [MARKER] + [LOCAL];
    EachConcat(f, [MARKER], [LOCAL]);
    EachOne(f, MARKER);
    EachOne(f, LOCAL);
  }

  // ----- Files and their lines -----

  lemma LinesOfFile(lines: seq<string>)
    requires lines != [] && Free(lines, '\n')
    ensures Split(File(lines), '\n') == lines + [""]
  {
    assert ['\n'] == "\n";
    SplitJoined(lines, '\n');
  }

  /** A reading that overlooks blank lines sees the lines of a file. */
  lemma ReadFile(f: string -> seq<string>, lines: seq<string>)
    requires lines != [] && Free(lines, '\n') && f("") == []
    ensures Each(f, Split(File(lines), '\n')) == Each(f, lines)
  {
    LinesOfFile(lines);
    EachConcat(f, lines, [""]);
    EachOne(f, "");
  }

  predicate MakesFree(f: string -> seq<string>, lines: seq<string>) {
    forall line, p :: line in lines && p in f(line) ==> '\n' !in p
  }

  lemma EachFree(f: string -> seq<string>, lines: seq<string>)
    requires MakesFree(f, lines)
    ensures Free(Each(f, lines), '\n')
  {
    forall p | p in Each(f, lines)
      ensures '\n' !in p
    {
      EachMember(f, lines, p);
    }
  }

  lemma LineFree(line: string)
    requires '\n' !in line
    ensures forall p :: p in SetLine(line) || p in KeptLine(line) || p in Other(line) ==> '\n' !in p
  {
    TrimSpaceTrims(line);
    assert '\n' !in SAVED;
  }

  lemma LinesMakeFree(lines: seq<string>)
    requires forall line :: line in lines ==> '\n' !in line
    ensures MakesFree(SetLine, lines) && MakesFree(KeptLine, lines) && MakesFree(Other, lines)
  {
    forall line | line in lines
      ensures forall p :: p in SetLine(line) || p in KeptLine(line) || p in Other(line) ==> '\n' !in p
    {
      LineFree(line);
    }
  }

  lemma LinesFree(orig: string)
    ensures Free(Each(SetLine, Split(orig, '\n')), '\n')
    ensures Free(Each(KeptLine, Split(orig, '\n')), '\n')
    ensures Free(Each(Other, Split(orig, '\n')), '\n')
  {
    var lines := Split(orig, '\n');
    SplitIsFree(orig, '\n');
    LinesMakeFree(lines);
    EachFree(SetLine, lines);
    EachFree(KeptLine, lines);
    EachFree(Other, lines);
  }

  /** How any reading that overlooks the marker sees, line by line, the file Set writes. */
  lemma ReadAfterSet(f: string -> seq<string>, orig: string)
    requires f("") == [] && f(MARKER) == []
    ensures Each(f, Split(Set(orig), '\n')) == f(LOCAL) + Each(f, Each(SetLine, Split(orig, '\n')))
  {
    var lines := Each(SetLine, Split(orig, '\n'));
    SetIsFree(orig);
    ReadFile(f, Head() + lines);
    EachConcat(f, Head(), lines);
    EachHead(f);
    EmptyFront(f(LOCAL));
  }

  lemma EmptyFront(a: seq<string>)
    ensures [] + a == a
  {
  }

  lemma SetIsFree(orig: string)
    ensures Free(Head() + Each(SetLine, Split(orig, '\n')), '\n')
  {
    LinesFree(orig);
    MarkerLine();
    LocalLine();
  }

  // ----- Main results -----

  lemma RestoredLines(orig: string)
    ensures Each(RestoreLine, Split(Set(orig), '\n')) == Each(KeptLine, Split(orig, '\n'))
  {
    var lines := Split(orig, '\n');
    BlankLine();
    MarkerLine();
    LocalLine();
    ReadAfterSet(RestoreLine, orig);
    forall line | line in lines
      ensures Each(RestoreLine, SetLine(line)) == KeptLine(line)
    {
      AfterSetLine(line);
    }
    EachEach(SetLine, RestoreLine, KeptLine, lines);
  }

  /** Set followed by Restore gives the normal form of the file. */
  lemma RestoreUndoesSet(orig: string)
    ensures Restore(Set(orig)) == Normal(orig)
  {
    RestoredLines(orig);
  }

  /** The file Set writes starts with the marker and the local nameserver, and ends with a newline. */
  lemma SetStarts(orig: string)
    ensures var lines := Split(Set(orig), '\n');
            |lines| >= 3 && lines[0] == MARKER && lines[1] == LOCAL && lines[|lines| - 1] == ""
  {
    SetIsFree(orig);
    LinesOfFile(Head() + Each(SetLine, Split(orig, '\n')));
  }

  /** A line some other program wrote: not gecit's, and not the local nameserver. */
  predicate Foreign(line: string) {
    '\n' !in line && !HasPrefix(TrimSpace(line), GECIT) && TrimSpace(line) != LOCAL
  }

  function NotBlank(line: string): seq<string> {
    if TrimSpace(line) == "" then [] else [line]
  }

  lemma ForeignStay(lines: seq<string>)
    requires forall line :: line in lines ==> Foreign(line)
    ensures Each(RestoreLine, lines) == Each(NotBlank, lines)
  {
    forall line | line in lines
      ensures Each(RestoreLine, [line]) == NotBlank(line)
    {
      EachOne(RestoreLine, line);
      Prefixes(TrimSpace(line));
    }
    EachSingle(RestoreLine, NotBlank, lines);
  }

  lemma {:induction false} EachSingle(f: string -> seq<string>, g: string -> seq<string>, lines: seq<string>)
    requires forall line :: line in lines ==> Each(f, [line]) == g(line)
    ensures Each(f, lines) == Each(g, lines)
  {
    if lines != [] {
      var front, last := lines[..|lines| - 1], lines[|lines| - 1];
      assert last in lines && forall l :: l in front ==> l in lines;
      EachOne(f, last);
      EachSingle(f, g, front);
    }
  }

  lemma FilesJoin(a: seq<string>, b: seq<string>)
    requires a != [] && b != []
    ensures File(a) + File(b) == File(a + b)
  {
    JoinConcat(a, b, "\n");
  }

  /** Lines that another program added to the file while gecit ran survive the Restore: whatever the file was, it
      comes back in its normal form, followed by these lines, of which only the blank ones are dropped. */
  lemma RestoreKeepsForeign(orig: string, added: seq<string>)
    requires added != [] && forall line :: line in added ==> Foreign(line)
    ensures Restore(Set(orig) + File(added))
            == File(OrFallback(Each(KeptLine, Split(orig, '\n')) + Each(NotBlank, added)))
  {
    var own := Head() + Each(SetLine, Split(orig, '\n'));
    SetIsFree(orig);
    FilesJoin(own, added);
    LinesOfFile(own);
    BlankLine();
    ReadFile(RestoreLine, own + added);
    EachConcat(RestoreLine, own, added);
    ReadFile(RestoreLine, own);
    RestoredLines(orig);
    ForeignStay(added);
  }

  lemma KeptLinesStay(lines: seq<string>)
    ensures Each(KeptLine, OrFallback(Each(KeptLine, lines))) == OrFallback(Each(KeptLine, lines))
  {
    forall line | line in lines
      ensures Each(KeptLine, KeptLine(line)) == KeptLine(line)
    {
      AfterKeptLine(line);
    }
    EachEach(KeptLine, KeptLine, KeptLine, lines);
    FallbackLine();
    EachOne(KeptLine, FALLBACK);
  }

  lemma LinesOfNormal(orig: string)
    ensures Each(KeptLine, Split(Normal(orig), '\n')) == OrFallback(Each(KeptLine, Split(orig, '\n')))
  {
    var kept := OrFallback(Each(KeptLine, Split(orig, '\n')));
    LinesFree(orig);
    FallbackLine();
    BlankLine();
    ReadFile(KeptLine, kept);
    KeptLinesStay(Split(orig, '\n'));
  }

  /** The normal form is a fixed point. */
  lemma NormalIsFixed(orig: string)
    ensures Normal(Normal(orig)) == Normal(orig)
  {
    LinesOfNormal(orig);
  }

  /** After Set, whatever the file was: the only nameserver line is 127.0.0.1, the old nameservers are
      saved in order, and every other line survives unchanged and in order. */
  lemma AfterSet(orig: string)
    ensures var before, after := Split(orig, '\n'), Split(Set(orig), '\n');
            && Each(Nameserver, after) == [LOCAL]
            && Each(Saved, after) == Each(Nameserver, before)
            && Each(Other, after) == Each(Other, before)
  {
    var lines := Split(orig, '\n');
    BlankLine();
    MarkerLine();
    LocalLine();
    ReadAfterSet(Nameserver, orig);
    ReadAfterSet(Saved, orig);
    ReadAfterSet(Other, orig);
    KindsAfterSet(lines);
  }

  lemma KindsAfterSet(lines: seq<string>)
    ensures Each(Nameserver, Each(SetLine, lines)) == []
    ensures Each(Saved, Each(SetLine, lines)) == Each(Nameserver, lines)
    ensures Each(Other, Each(SetLine, lines)) == Each(Other, lines)
  {
    var none := (line: string) => [];
    forall line | line in lines
      ensures Each(Nameserver, SetLine(line)) == none(line)
      ensures Each(Saved, SetLine(line)) == Nameserver(line)
      ensures Each(Other, SetLine(line)) == Other(line)
    {
      AfterSetLine(line);
    }
    EachEach(SetLine, Nameserver, none, lines);
    EachNone(none, lines);
    EachEach(SetLine, Saved, Nameserver, lines);
    EachEach(SetLine, Other, Other, lines);
  }

  lemma {:induction false} EachNone(f: string -> seq<string>, lines: seq<string>)
    requires forall line :: line in lines ==> f(line) == []
    ensures Each(f, lines) == []
  {
    if lines != [] {
      assert lines[|lines| - 1] in lines && forall l :: l in lines[..|lines| - 1] ==> l in lines;
      EachNone(f, lines[..|lines| - 1]);
    }
  }

  // ----- A second Set without a Restore in between -----

  lemma {:induction false} KeptCount(lines: seq<string>)
    ensures |Each(KeptLine, lines)| == |Each(Nameserver, lines)| + |Each(Other, lines)|
    ensures Each(Nameserver, lines) == [] ==> Each(KeptLine, lines) == Each(Other, lines)
  {
    if lines != [] {
      KeptCount(lines[..|lines| - 1]);
      KindsOfLine(lines[|lines| - 1]);
    }
  }

  /** With one nameserver that comes first, the kept lines are it and then the others. */
  lemma {:induction false} KeptShape(lines: seq<string>)
    requires |Each(Nameserver, lines)| == 1 && Each(KeptLine, lines) != []
    requires Each(KeptLine, lines)[0] == Each(Nameserver, lines)[0]
    ensures Each(KeptLine, lines) == Each(Nameserver, lines) + Each(Other, lines)
  {
    var front, last := lines[..|lines| - 1], lines[|lines| - 1];
    KeptCount(front);
    KindsOfLine(last);
    if Nameserver(last) == [] {
      assert Each(Nameserver, lines) == Each(Nameserver, front);
      assert Each(KeptLine, lines) == Each(KeptLine, front) + Other(last);
      KeptShape(front);
    } else if Each(Other, front) != [] {
      FirstOther(front, last);
    }
  }

  lemma KindsOfLine(line: string)
    ensures KeptLine(line) == Nameserver(line) + Other(line)
    ensures |Nameserver(line)| + |Other(line)| <= 1
    ensures forall p :: p in Nameserver(line) ==> IsNameserver(p)
    ensures forall p :: p in Other(line) ==> !IsNameserver(p)
  {
    Prefixes(TrimSpace(line));
    TrimSpaceTrims(line);
    TrimmedStays(TrimSpace(line));
  }

  lemma FirstOther(front: seq<string>, last: string)
    requires Each(Other, front) != []
    ensures Each(Other, front)[0] !in Nameserver(last)
  {
    var p := Each(Other, front)[0];
    EachMember(Other, front, p);
    var line :| line in front && p in Other(line);
    KindsOfLine(line);
    KindsOfLine(last);
  }

  /** The file with 127.0.0.1 for its nameservers, ahead of its other lines. */
  function LocalOnly(orig: string): string {
    File([LOCAL] + Each(Other, Split(orig, '\n')))
  }

  /** Two Sets keep only 127.0.0.1 as the nameserver to go back to. */
  lemma RestoreAfterTwoSets(orig: string)
    ensures Restore(Set(Set(orig))) == LocalOnly(orig) && Normal(Set(orig)) == LocalOnly(orig)
  {
    RestoreUndoesSet(Set(orig));
    BlankLine();
    MarkerLine();
    LocalLine();
    ReadAfterSet(KeptLine, orig);
    KindsAfterSet(Split(orig, '\n'));
    KeptCount(Each(SetLine, Split(orig, '\n')));
  }

  /** How any reading, line by line, sees that file. */
  lemma ReadLocalOnly(f: string -> seq<string>, orig: string)
    requires f("") == []
    ensures Each(f, Split(LocalOnly(orig), '\n')) == f(LOCAL) + Each(f, Each(Other, Split(orig, '\n')))
  {
    var others := Each(Other, Split(orig, '\n'));
    LinesFree(orig);
    LocalLine();
    ReadFile(f, [LOCAL] + others);
    EachConcat(f, [LOCAL], others);
    EachOne(f, LOCAL);
  }

  /** A line that is kept as it is, read again. */
  lemma AfterOther(line: string)
    ensures Each(Other, Other(line)) == Other(line) && Each(KeptLine, Other(line)) == Other(line)
    ensures Each(SetLine, Other(line)) == Other(line) && Each(Nameserver, Other(line)) == []
    ensures Each(SetLine, SetLine(line)) == Other(line)
  {
    AfterSetLine(line);
    if Other(line) != [] {
      EachOne(Other, line);
      EachOne(KeptLine, line);
      EachOne(SetLine, line);
      EachOne(Nameserver, line);
    } else if SetLine(line) != [] {
      TrimSpaceTrims(line);
      EachOne(SetLine, SAVED + TrimSpace(line));
      SavedIsDropped(TrimSpace(line));
    }
  }

  lemma SavedIsDropped(trimmed: string)
    requires Trimmed(trimmed)
    ensures trimmed != "" ==> SetLine(SAVED + trimmed) == []
  {
    if trimmed != "" {
      TrimmedStays(SAVED + trimmed);
      assert HasPrefix(SAVED + trimmed, SAVED);
      Prefixes(SAVED + trimmed);
    }
  }

  lemma OthersStay(lines: seq<string>)
    ensures Each(Other, Each(Other, lines)) == Each(Other, lines)
    ensures Each(KeptLine, Each(Other, lines)) == Each(Other, lines)
    ensures Each(SetLine, Each(Other, lines)) == Each(Other, lines)
    ensures Each(SetLine, Each(SetLine, lines)) == Each(Other, lines)
    ensures Each(Nameserver, Each(Other, lines)) == []
  {
    var none := (line: string) => [];
    forall line | line in lines
      ensures Each(Other, Other(line)) == Other(line) && Each(KeptLine, Other(line)) == Other(line)
      ensures Each(SetLine, Other(line)) == Other(line) && Each(Nameserver, Other(line)) == none(line)
      ensures Each(SetLine, SetLine(line)) == Other(line)
    {
      AfterOther(line);
    }
    EachEach(Other, Other, Other, lines);
    EachEach(Other, KeptLine, Other, lines);
    EachEach(Other, SetLine, Other, lines);
    EachEach(SetLine, SetLine, Other, lines);
    EachEach(Other, Nameserver, none, lines);
    EachNone(none, lines);
  }

  lemma LinesOfLocalOnly(orig: string)
    ensures var others, after := Each(Other, Split(orig, '\n')), Split(LocalOnly(orig), '\n');
            && Each(KeptLine, after) == [LOCAL] + others && Each(Other, after) == others
            && Each(Nameserver, after) == [LOCAL] && Each(SetLine, after) == SetLine(LOCAL) + others
  {
    BlankLine();
    LocalLine();
    OthersStay(Split(orig, '\n'));
    ReadLocalOnly(KeptLine, orig);
    ReadLocalOnly(Other, orig);
    ReadLocalOnly(Nameserver, orig);
    ReadLocalOnly(SetLine, orig);
  }

  lemma LinesAfterSet(orig: string)
    ensures Each(SetLine, Split(Set(orig), '\n')) == SetLine(LOCAL) + Each(Other, Split(orig, '\n'))
  {
    BlankLine();
    MarkerLine();
    ReadAfterSet(SetLine, orig);
    OthersStay(Split(orig, '\n'));
  }

  /** Such a file stays under Set and Restore, and a second Set comes to a Set of it. */
  lemma LocalOnlyStays(orig: string)
    ensures Normal(LocalOnly(orig)) == LocalOnly(orig) && LocalOnly(LocalOnly(orig)) == LocalOnly(orig)
    ensures Set(Set(orig)) == Set(LocalOnly(orig))
    ensures Each(Nameserver, Split(LocalOnly(orig), '\n')) == [LOCAL]
  {
    LinesOfLocalOnly(orig);
    LinesAfterSet(orig);
  }

  /** The kinds of lines in the normal form. */
  lemma KindsOfNormal(orig: string)
    ensures var lines, after := Split(orig, '\n'), Split(Normal(orig), '\n');
            && Each(Nameserver, after) == (if Each(KeptLine, lines) == [] then [FALLBACK] else Each(Nameserver, lines))
            && Each(Other, after) == Each(Other, lines)
  {
    var kept := OrFallback(Each(KeptLine, Split(orig, '\n')));
    LinesFree(orig);
    FallbackLine();
    BlankLine();
    ReadFile(Nameserver, kept);
    ReadFile(Other, kept);
    KindsOfKeptOrFallback(Split(orig, '\n'));
  }

  lemma KindsOfKeptOrFallback(lines: seq<string>)
    ensures var kept := Each(KeptLine, lines);
            && Each(Nameserver, OrFallback(kept)) == (if kept == [] then [FALLBACK] else Each(Nameserver, lines))
            && Each(Other, OrFallback(kept)) == Each(Other, lines)
  {
    KindsOfKept(lines);
    if Each(KeptLine, lines) == [] {
      KeptCount(lines);
      FallbackLine();
      EachOne(Nameserver, FALLBACK);
      EachOne(Other, FALLBACK);
    }
  }

  lemma NormalKeepsOthers(orig: string)
    ensures LocalOnly(Normal(orig)) == LocalOnly(orig)
  {
    KindsOfNormal(orig);
  }

  lemma KindsOfKept(lines: seq<string>)
    ensures Each(Nameserver, Each(KeptLine, lines)) == Each(Nameserver, lines)
    ensures Each(Other, Each(KeptLine, lines)) == Each(Other, lines)
  {
    forall line | line in lines
      ensures Each(Nameserver, KeptLine(line)) == Nameserver(line) && Each(Other, KeptLine(line)) == Other(line)
    {
      AfterKeptLine(line);
    }
    EachEach(KeptLine, Nameserver, Nameserver, lines);
    EachEach(KeptLine, Other, Other, lines);
  }

  lemma FileInjective(a: seq<string>, b: seq<string>)
    requires a != [] && b != [] && Free(a, '\n') && Free(b, '\n')
    ensures File(a) == File(b) ==> a == b
  {
    LinesOfFile(a);
    LinesOfFile(b);
    assert (a + [""])[..|a|] == a && (b + [""])[..|b|] == b;
  }

  /** 127.0.0.1 is the only nameserver of the file. */
  predicate OnlyLocal(orig: string) {
    Each(Nameserver, Split(orig, '\n')) == [LOCAL]
  }

  /** It also comes before every other line that is kept. */
  predicate LocalFirst(orig: string) {
    OnlyLocal(orig) && Each(KeptLine, Split(orig, '\n')) != [] && Each(KeptLine, Split(orig, '\n'))[0] == LOCAL
  }

  /** The nameservers after two Sets: those saved, and those given back by a Restore, are the ones of a single
      Set exactly when 127.0.0.1 was the only nameserver to begin with. */
  lemma TwoSetsLoseNameservers(orig: string)
    ensures Each(Saved, Split(Set(Set(orig)), '\n')) == Each(Saved, Split(Set(orig), '\n')) <==> OnlyLocal(orig)
    ensures Each(Nameserver, Split(Restore(Set(Set(orig))), '\n')) == Each(Nameserver, Split(Restore(Set(orig)), '\n'))
            <==> OnlyLocal(orig)
  {
    AfterSet(orig);
    AfterSet(Set(orig));
    RestoreUndoesSet(orig);
    RestoreAfterTwoSets(orig);
    LocalOnlyNameservers(orig);
  }

  lemma LocalOnlyNameservers(orig: string)
    ensures Each(Nameserver, Split(LocalOnly(orig), '\n')) == Each(Nameserver, Split(Normal(orig), '\n'))
            <==> OnlyLocal(orig)
  {
    LocalOnlyStays(orig);
    KindsOfNormal(orig);
    FallbackLine();
    KeptCount(Split(orig, '\n'));
  }

  /** The whole file comes back as after a single Set exactly when, besides, 127.0.0.1 came first. */
  lemma TwoSetsChangeFile(orig: string)
    ensures Restore(Set(Set(orig))) == Restore(Set(orig)) <==> LocalFirst(orig)
  {
    RestoreUndoesSet(orig);
    RestoreAfterTwoSets(orig);
    LocalOnlyIsNormal(orig);
  }

  lemma LocalOnlyIsNormal(orig: string)
    ensures LocalOnly(orig) == Normal(orig) <==> LocalFirst(orig)
  {
    var lines := Split(orig, '\n');
    KeptCount(lines);
    if LocalFirst(orig) {
      KeptShape(lines);
    }
    if LocalOnly(orig) == Normal(orig) {
      LinesFree(orig);
      LocalLine();
      FallbackLine();
      FileInjective([LOCAL] + Each(Other, lines), OrFallback(Each(KeptLine, lines)));
      LocalOnlyNameservers(orig);
    }
  }

  lemma KeptIsNotMarker(line: string)
    ensures MARKER !in KeptLine(line)
  {
    AfterKeptLine(line);
    MarkerLine();
    EachOne(KeptLine, MARKER);
    assert KeptLine(line) != [MARKER];
  }

  /** The normal form keeps no gecit line. */
  lemma MarkerNotKept(lines: seq<string>)
    ensures MARKER !in OrFallback(Each(KeptLine, lines))
  {
    MarkerLine();
    FallbackLine();
    forall line | line in Each(KeptLine, lines)
      ensures line != MARKER
    {
      EachMember(KeptLine, lines, line);
      var l :| l in lines && line in KeptLine(l);
      KeptIsNotMarker(l);
    }
  }

  /** So a file Set has written is in no file's normal form. */
  lemma SetIsNotNormal(a: string, b: string)
    ensures Set(a) != Normal(b)
  {
    var written, kept := Head() + Each(SetLine, Split(a, '\n')), OrFallback(Each(KeptLine, Split(b, '\n')));
    LinesFree(a);
    LinesFree(b);
    MarkerLine();
    LocalLine();
    FallbackLine();
    MarkerNotKept(Split(b, '\n'));
    assert written[0] == MARKER;
    FileInjective(written, kept);
  }
}
