/** A model of `pathlib.PurePosixPath`: a path is an optional root anchor and
    a sequence of components; `/` parses its right operand the way pathlib
    does, dropping empty and "." components. */
module Paths {
  import opened Text

  datatype Path = Path(anchored: bool, parts: seq<string>)

  /** `s.split('/')`. */
  function SplitSlash(s: string): (r: seq<string>)
    ensures |r| > 0
    ensures '/' !in s ==> r == [s]
    decreases |s|
  {
    if |s| == 0 then [""]
    else
      var rest := SplitSlash(s[1..]);
      if s[0] == '/' then [""] + rest
      else
        assert '/' !in s ==> '/' !in s[1..] && [s[0]] + s[1..] == s;
        [[s[0]] + rest[0]] + rest[1..]
  }

  /** The components pathlib keeps from a list of raw pieces. */
  function Kept(pieces: seq<string>): (r: seq<string>)
    ensures forall i :: 0 <= i < |r| ==> r[i] != "" && r[i] != "."
  {
    if |pieces| == 0 then []
    else if pieces[0] == "" || pieces[0] == "." then Kept(pieces[1..])
    else [pieces[0]] + Kept(pieces[1..])
  }

  /** `path / segment`: an absolute segment replaces the path, otherwise its
      components are appended. */
  function Join(p: Path, segment: string): Path
  {
    var comps := Kept(SplitSlash(segment));
    if |segment| > 0 && segment[0] == '/' then Path(true, comps)
    else Path(p.anchored, p.parts + comps)
  }

  /** Joining a segment without '/' appends it as one component, unless it
      is "" or "." which pathlib drops. */
  lemma JoinPlain(p: Path, segment: string)
    requires '/' !in segment
    ensures Join(p, segment) ==
      if segment == "" || segment == "." then p
      else Path(p.anchored, p.parts + [segment])
  {
    assert SplitSlash(segment) == [segment];
    assert Kept([segment]) == if segment == "" || segment == "." then [] else [segment];
  }

  /** The child `p / name` that `iterdir` yields: `name` is one component. */
  function Child(p: Path, name: string): Path
  {
    Path(p.anchored, p.parts + [name])
  }

  /** `path.name`: the last component, or "" for a path without components. */
  function Name(p: Path): string
  {
    if |p.parts| == 0 then "" else p.parts[|p.parts| - 1]
  }

  /** `s.rfind(c)`: the last index holding `c`, or -1. */
  function RFind(s: string, c: char): (i: int)
    ensures -1 <= i < |s|
    ensures i >= 0 ==> s[i] == c
    ensures forall j :: i < j < |s| ==> s[j] != c
    decreases |s|
  {
    if |s| == 0 then -1
    else if s[|s| - 1] == c then |s| - 1
    else RFind(s[..|s| - 1], c)
  }

  /** pathlib's rule: the last dot starts a suffix only when it is neither
      the first nor the last character of the name. */
  predicate HasSuffixDot(name: string)
  {
    0 < RFind(name, '.') < |name| - 1
  }

  /** `path.suffix`. */
  function Suffix(p: Path): string
  {
    var name := Name(p);
    if HasSuffixDot(name) then name[RFind(name, '.')..] else ""
  }

  /** `path.stem`. */
  function Stem(p: Path): string
  {
    var name := Name(p);
    if HasSuffixDot(name) then name[..RFind(name, '.')] else name
  }

  /** The stem and the suffix split the name: `stem + suffix == name`, and
      a non-empty suffix is a dot followed by at least one dot-free character. */
  lemma StemSuffixSplit(p: Path)
    ensures Stem(p) + Suffix(p) == Name(p)
    ensures Suffix(p) != "" ==> Suffix(p)[0] == '.' && |Suffix(p)| >= 2 && '.' !in Suffix(p)[1..]
    ensures Suffix(p) != "" ==> Stem(p) != ""
  {
    var name := Name(p);
    if HasSuffixDot(name) {
      assert name[..RFind(name, '.')] + name[RFind(name, '.')..] == name;
    }
  }

  /** `str(path)`. */
  function PathText(p: Path): string
  {
    if p.anchored then "/" + Text.Join(p.parts, "/")
    else if |p.parts| == 0 then "."
    else Text.Join(p.parts, "/")
  }
}
