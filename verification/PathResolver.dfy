/** `PathResolver`: the output layout `{root}/{artist}/[{project}/]{song}/`
    and the name sanitising that makes names safe as path components. */
module Resolver {
  import opened Wrappers
  import opened Text
  import opened Paths

  // ----- Sanitising names (`_sanitize_name`) -----

  /** The replacements, in the dictionary's order. */
  const Replacements: seq<(char, string)> := [
    ('/', "-"), ('\\', "-"), (':', "-"),
    ('*', ""), ('?', ""), ('"', ""), ('<', ""), ('>', ""),
    ('|', "-")]

  /** The characters that never survive sanitising. */
  predicate Forbidden(c: char)
  {
    c == '/' || c == '\\' || c == ':' || c == '*' || c == '?' || c == '"' || c == '<' || c == '>' || c == '|'
  }

  /** What one character becomes: a separator-like character turns into
      "-", a wildcard or quoting character disappears, others stay. */
  function SafeChar(c: char): string
  {
    if c == '/' || c == '\\' || c == ':' || c == '|' then "-"
    else if Forbidden(c) then ""
    else [c]
  }

  /** The character-by-character reading of the replacements. */
  function SafeChars(s: string): (r: string)
    ensures forall c :: c in r ==> !Forbidden(c)
    decreases |s|
  {
    if |s| == 0 then "" else SafeChar(s[0]) + SafeChars(s[1..])
  }

  /** Applies the replacements from index `i` on, in order. */
  function ReplaceFrom(s: string, i: nat): string
    requires i <= |Replacements|
    decreases |Replacements| - i
  {
    if i == |Replacements| then s
    else ReplaceFrom(ReplaceAll(s, [Replacements[i].0], Replacements[i].1), i + 1)
  }

  /** Replacing a single character maps each character on its own. */
  lemma {:induction false} ReplaceCharPointwise(s: string, c: char, rep: string)
    ensures ReplaceAll(s, [c], rep) == MapChar(s, c, rep)
    decreases |s|
  {
    if |s| > 0 {
      ReplaceCharPointwise(s[1..], c, rep);
      if s[0] == c {
        assert IsPrefix([c], s);
        assert s[|[c]|..] == s[1..];
      } else {
        assert !IsPrefix([c], s) by {
          assert s[..1][0] == s[0];
        }
      }
    }
  }

  function MapChar(s: string, c: char, rep: string): string
    decreases |s|
  {
    if |s| == 0 then "" else (if s[0] == c then rep else [s[0]]) + MapChar(s[1..], c, rep)
  }

  lemma {:induction false} MapCharConcat(a: string, b: string, c: char, rep: string)
    ensures MapChar(a + b, c, rep) == MapChar(a, c, rep) + MapChar(b, c, rep)
    decreases |a|
  {
    if |a| > 0 {
      assert (a + b)[1..] == a[1..] + b;
      MapCharConcat(a[1..], b, c, rep);
    } else {
      assert a + b == b;
    }
  }

  /** Mapping a character that does not occur changes nothing. */
  lemma {:induction false} MapCharAbsent(s: string, c: char, rep: string)
    requires c !in s
    ensures MapChar(s, c, rep) == s
    decreases |s|
  {
    if |s| > 0 {
      MapCharAbsent(s[1..], c, rep);
      assert [s[0]] + s[1..] == s;
    }
  }

  /** The replacements from index `i` on, applied to one character that has
      survived the earlier ones. */
  function SafeFrom(c: char, i: nat): string
    requires i <= |Replacements|
    decreases |Replacements| - i
  {
    if i == |Replacements| then [c]
    else if c == Replacements[i].0 then Replacements[i].1
    else SafeFrom(c, i + 1)
  }

  lemma SafeFromZero(c: char)
    ensures SafeFrom(c, 0) == SafeChar(c)
  {
  }

  /** A replacement text ("-" or "") holds none of the characters replaced
      after it, so later replacements leave it alone. */
  lemma {:induction false} ReplaceFromRep(rep: string, i: nat)
    requires i <= |Replacements|
    requires rep == "-" || rep == ""
    ensures ReplaceFrom(rep, i) == rep
    decreases |Replacements| - i
  {
    if i < |Replacements| {
      ReplaceCharPointwise(rep, Replacements[i].0, Replacements[i].1);
      assert Replacements[i].0 != '-';
      MapCharAbsent(rep, Replacements[i].0, Replacements[i].1);
      ReplaceFromRep(rep, i + 1);
    }
  }

  lemma {:induction false} ReplaceFromChar(c: char, i: nat)
    requires i <= |Replacements|
    ensures ReplaceFrom([c], i) == SafeFrom(c, i)
    decreases |Replacements| - i
  {
    if i < |Replacements| {
      var (from, rep) := Replacements[i];
      ReplaceCharPointwise([c], from, rep);
      assert MapChar([c], from, rep) == (if c == from then rep else [c]) by {
        assert [c][1..] == [];
      }
      if c == from {
        assert rep == "-" || rep == "";
        ReplaceFromRep(rep, i + 1);
      } else {
        ReplaceFromChar(c, i + 1);
      }
    }
  }

  lemma {:induction false} ReplaceFromConcat(a: string, b: string, i: nat)
    requires i <= |Replacements|
    ensures ReplaceFrom(a + b, i) == ReplaceFrom(a, i) + ReplaceFrom(b, i)
    decreases |Replacements| - i
  {
    if i < |Replacements| {
      var (from, rep) := Replacements[i];
      ReplaceCharPointwise(a + b, from, rep);
      ReplaceCharPointwise(a, from, rep);
      ReplaceCharPointwise(b, from, rep);
      MapCharConcat(a, b, from, rep);
      ReplaceFromConcat(MapChar(a, from, rep), MapChar(b, from, rep), i + 1);
    }
  }

  /** The nine replacements in a row act character by character. */
  lemma {:induction false} ReplacementsAreSafeChars(s: string)
    ensures ReplaceFrom(s, 0) == SafeChars(s)
    decreases |s|
  {
    if |s| > 0 {
      assert s == [s[0]] + s[1..];
      ReplaceFromConcat([s[0]], s[1..], 0);
      ReplaceFromChar(s[0], 0);
      SafeFromZero(s[0]);
      ReplacementsAreSafeChars(s[1..]);
    } else {
      ReplaceFromRep("", 0);
    }
  }

  // Collapsing runs of spaces.

  /** Reference reading of the collapse loop: a space right after a space
      is dropped. `afterSpace` says whether the text before `s` ended in one. */
  function SquashFrom(afterSpace: bool, s: string): string
    decreases |s|
  {
    if |s| == 0 then ""
    else if s[0] == ' ' && afterSpace then SquashFrom(true, s[1..])
    else [s[0]] + SquashFrom(s[0] == ' ', s[1..])
  }

  /** One pass of the loop body does not change the squashed reading. */
  lemma {:induction false} SquashStable(afterSpace: bool, s: string)
    ensures SquashFrom(afterSpace, ReplaceAll(s, "  ", " ")) == SquashFrom(afterSpace, s)
    decreases |s|
  {
    if |s| > 0 {
      if IsPrefix("  ", s) {
        var rest := s[2..];
        SquashStable(true, rest);
        assert ReplaceAll(s, "  ", " ") == " " + ReplaceAll(rest, "  ", " ");
        assert (" " + ReplaceAll(rest, "  ", " "))[1..] == ReplaceAll(rest, "  ", " ");
        assert s[0] == ' ' && s[1] == ' ';
        assert s[1..][1..] == rest;
      } else {
        SquashStable(s[0] == ' ', s[1..]);
        assert ReplaceAll(s, "  ", " ") == [s[0]] + ReplaceAll(s[1..], "  ", " ");
        assert ([s[0]] + ReplaceAll(s[1..], "  ", " "))[1..] == ReplaceAll(s[1..], "  ", " ");
      }
    }
  }

  /** Text without two spaces in a row is its own squashed reading. */
  lemma {:induction false} SquashIdentity(afterSpace: bool, s: string)
    requires !Contains(s, "  ")
    requires afterSpace ==> |s| == 0 || s[0] != ' '
    ensures SquashFrom(afterSpace, s) == s
    decreases |s|
  {
    if |s| > 0 {
      assert !IsPrefix("  ", s);
      assert |s| > 1 ==> s[..2] == [s[0], s[1]];
      SquashIdentity(s[0] == ' ', s[1..]);
      assert [s[0]] + s[1..] == s;
    }
  }

  /** Replacing "  " by " " shortens any text that contains it. */
  lemma {:induction false} ReplaceShrinks(s: string, pat: string, rep: string)
    requires |pat| > |rep|
    ensures |ReplaceAll(s, pat, rep)| <= |s|
    ensures Contains(s, pat) ==> |ReplaceAll(s, pat, rep)| < |s|
    decreases |s|
  {
    if |s| > 0 {
      if IsPrefix(pat, s) {
        ReplaceShrinks(s[|pat|..], pat, rep);
      } else {
        ReplaceShrinks(s[1..], pat, rep);
      }
    }
  }

  /** `while "  " in name: name = name.replace("  ", " ")`; each pass
      shortens the text, which bounds the loop. */
  function Collapse(s: string): (r: string)
    ensures !Contains(r, "  ")
    ensures r == SquashFrom(false, s)
    decreases |s|
  {
    if Contains(s, "  ") then
      ReplaceShrinks(s, "  ", " ");
      SquashStable(false, s);
      Collapse(ReplaceAll(s, "  ", " "))
    else
      SquashIdentity(false, s);
      s
  }

  /** `_sanitize_name`: strip, replace, then collapse runs of spaces. */
  function Sanitize(name: string): (r: string)
    ensures forall c :: c in r ==> !Forbidden(c)
    ensures !Contains(r, "  ")
    ensures r == SquashFrom(false, SafeChars(Strip(name)))
  {
    var stripped := Strip(name);
    ReplacementsAreSafeChars(stripped);
    SquashKeepsChars(false, SafeChars(stripped));
    Collapse(ReplaceFrom(stripped, 0))
  }

  lemma {:induction false} SquashKeepsChars(afterSpace: bool, s: string)
    ensures forall c :: c in SquashFrom(afterSpace, s) ==> c in s
    decreases |s|
  {
    if |s| > 0 {
      SquashKeepsChars(true, s[1..]);
      SquashKeepsChars(s[0] == ' ', s[1..]);
    }
  }

  /** Stripping comes first and is not repeated, so a name can end in a
      space once a trailing character is removed: "a *" gives "a ", and
      sanitising that again gives "a". */
  lemma NotIdempotent()
    ensures Sanitize("a *") == "a "
    ensures Sanitize("a ") == "a"
  {
    StripExamples();
    SafeCharsExamples();
    SquashExamples();
  }

  lemma StripExamples()
    ensures Strip("a *") == "a *"
    ensures Strip("a ") == "a"
  {
    StripAStar();
    StripASpace();
  }

  lemma StripAStar()
    ensures Strip("a *") == "a *"
  {
    var x: string := "a *";
    assert !IsSpace(x[0]) && !IsSpace(x[2]);
    assert TrimLeft(x) == x;
    assert TrimRight(x) == x;
  }

  lemma StripASpace()
    ensures Strip("a ") == "a"
  {
    var y: string := "a ";
    var a: string := "a";
    assert !IsSpace(y[0]) && IsSpace(y[1]) && !IsSpace(a[0]);
    assert TrimLeft(y) == y;
    assert y[..1] == a;
    assert TrimRight(a) == a;
    assert TrimRight(y) == a;
  }

  lemma SafeCharsExamples()
    ensures SafeChars("a *") == "a "
    ensures SafeChars("a") == "a"
  {
    var x: string := "a *";
    assert x[1..] == " *" && x[1..][1..] == "*" && x[1..][1..][1..] == "";
    assert SafeChars("*") == "";
    assert SafeChars(" *") == " ";
  }

  lemma SquashExamples()
    ensures SquashFrom(false, "a ") == "a "
    ensures SquashFrom(false, "a") == "a"
  {
    var x: string := "a ";
    assert x[1..] == " " && x[1..][1..] == "";
  }

  // ----- Resolving the layout (`resolve_paths`, `get_audio_files_dir`) -----

  /** `(output_dir, session_file)`. */
  datatype Resolved = Resolved(outputDir: Path, sessionFile: Path)

  /** The project name selects album mode when it is given and not empty. */
  predicate AlbumLayout(projectName: Option<string>)
  {
    projectName.Some? && projectName.value != ""
  }

  /** `resolve_paths(artist, song_name, project_name)`. */
  function ResolvePaths(root: Path, artist: string, songName: string, projectName: Option<string>): (r: Resolved)
    ensures r.outputDir.anchored == root.anchored
    ensures AlbumLayout(projectName) ==>
      r.outputDir.parts == root.parts + Kept([Sanitize(artist), Sanitize(projectName.value), Sanitize(songName)])
    ensures !AlbumLayout(projectName) ==>
      r.outputDir.parts == root.parts + Kept([Sanitize(artist), Sanitize(songName)])
    ensures r.sessionFile == Child(r.outputDir, Sanitize(songName) + ".ptx")
  {
    var a := Sanitize(artist);
    var s := Sanitize(songName);
    var p := if AlbumLayout(projectName) then Sanitize(projectName.value) else "";
    LayoutParts(root, a, p, s);
    var outputDir :=
      if AlbumLayout(projectName) then Paths.Join(Paths.Join(Paths.Join(root, a), p), s)
      else Paths.Join(Paths.Join(root, a), s);
    SessionFileJoin(outputDir, s);
    Resolved(outputDir, Paths.Join(outputDir, s + ".ptx"))
  }

  /** The session file name is one component. */
  lemma SessionFileJoin(dir: Path, s: string)
    requires forall c :: c in s ==> !Forbidden(c)
    ensures Paths.Join(dir, s + ".ptx") == Child(dir, s + ".ptx")
  {
    assert '/' !in s + ".ptx";
    JoinPlain(dir, s + ".ptx");
  }

  /** The components `resolve_paths` joins, in order. */
  lemma LayoutParts(root: Path, a: string, p: string, s: string)
    requires forall c :: c in a ==> !Forbidden(c)
    requires forall c :: c in p ==> !Forbidden(c)
    requires forall c :: c in s ==> !Forbidden(c)
    ensures Paths.Join(Paths.Join(Paths.Join(root, a), p), s)
      == Path(root.anchored, root.parts + Kept([a, p, s]))
    ensures Paths.Join(Paths.Join(root, a), s) == Path(root.anchored, root.parts + Kept([a, s]))
  {
    assert Path(root.anchored, root.parts + Kept([])) == root;
    JoinKeptStep(root, [], a, [a]);
    JoinKeptStep(root, [a], p, [a, p]);
    JoinKeptStep(root, [a, p], s, [a, p, s]);
    JoinKeptStep(root, [a], s, [a, s]);
  }

  /** Joining one more sanitised name onto the kept components under `root`. */
  lemma JoinKeptStep(root: Path, names: seq<string>, n: string, extended: seq<string>)
    requires forall c :: c in n ==> !Forbidden(c)
    requires extended == names + [n]
    ensures Paths.Join(Path(root.anchored, root.parts + Kept(names)), n)
      == Path(root.anchored, root.parts + Kept(extended))
  {
    SanitizedJoin(Path(root.anchored, root.parts + Kept(names)), n);
    KeptAppend(names, [n]);
    Assoc(root.parts, Kept(names), Kept([n]));
  }

  lemma Assoc(x: seq<string>, y: seq<string>, z: seq<string>)
    ensures x + y + z == x + (y + z)
  {
  }

  lemma KeptAppend(a: seq<string>, b: seq<string>)
    ensures Kept(a + b) == Kept(a) + Kept(b)
  {
    if |a| > 0 {
      assert (a + b)[1..] == a[1..] + b;
      KeptAppend(a[1..], b);
    } else {
      assert a + b == b;
    }
  }

  /** Joining a sanitised name adds it as one component (or nothing when
      pathlib drops it). */
  lemma SanitizedJoin(p: Path, name: string)
    requires forall c :: c in name ==> !Forbidden(c)
    ensures Paths.Join(p, name) == Path(p.anchored, p.parts + Kept([name]))
  {
    JoinPlain(p, name);
  }

  /** `get_audio_files_dir`. */
  function AudioFilesDir(outputDir: Path): (r: Path)
    ensures r == Child(outputDir, "Audio Files")
  {
    JoinPlain(outputDir, "Audio Files");
    Paths.Join(outputDir, "Audio Files")
  }

  /** The session is named after the sanitised song: the stem of the session
      file is that name whenever it is not empty. */
  lemma SessionNamedAfterSong(root: Path, artist: string, songName: string, projectName: Option<string>)
    requires Sanitize(songName) != ""
    ensures var r := ResolvePaths(root, artist, songName, projectName);
      Name(r.sessionFile) == Sanitize(songName) + ".ptx" && Stem(r.sessionFile) == Sanitize(songName)
      && Suffix(r.sessionFile) == ".ptx"
  {
    var r := ResolvePaths(root, artist, songName, projectName);
    PtxSplits(r.outputDir, Sanitize(songName));
  }

  /** A non-empty name followed by ".ptx" splits into that name and ".ptx". */
  lemma PtxSplits(dir: Path, s: string)
    requires s != ""
    ensures var f := Child(dir, s + ".ptx");
      Name(f) == s + ".ptx" && Stem(f) == s && Suffix(f) == ".ptx"
  {
    var name := s + ".ptx";
    assert forall j :: |s| < j < |name| ==> name[j] != '.';
    assert name[|s|] == '.';
    assert RFind(name, '.') == |s|;
    assert Name(Child(dir, name)) == name;
    assert name[..|s|] == s;
    assert name[|s|..] == ".ptx";
  }

  /** An empty project name is not album mode: the layout has two levels. */
  lemma EmptyProjectIsSingleLayout(root: Path, artist: string, songName: string)
    ensures ResolvePaths(root, artist, songName, Some("")) == ResolvePaths(root, artist, songName, None)
  {
  }
}
