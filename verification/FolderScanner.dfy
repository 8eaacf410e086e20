/** `FolderScanner`: split a directory listing into audio and MIDI files,
    skipping hidden entries, non-files and unsupported extensions, and sort
    both lists.  The listing (`exists`, `is_dir`, `iterdir`, `is_file`) is
    supplied as data. */
module Scanner {
  import opened Wrappers
  import opened Errors
  import opened Text
  import opened Paths

  /** One entry `iterdir` yields: its name and whether `is_file()` holds. */
  datatype Entry = Entry(name: string, isFile: bool)

  /** What the file system holds at the scanned path. */
  datatype Listing =
    | Absent
    | NotDirectory
    | Directory(entries: seq<Entry>)

  /** The scan result: `(audio_files, midi_files)`. */
  datatype Scan = Scan(audio: seq<Path>, midi: seq<Path>)

  const AudioExtensions: set<string> := {".wav", ".aif", ".aiff"}
  const MidiExtensions: set<string> := {".mid", ".midi"}

  /** `get_supported_extensions`: the five extensions either list accepts. */
  function SupportedExtensions(): (r: set<string>)
    ensures r == AudioExtensions + MidiExtensions
    ensures AudioExtensions !! MidiExtensions
    ensures |r| == 5
  {
    assert ".wav" != ".mid" && ".aif" != ".mid" && ".aiff" != ".mid";
    assert ".wav" != ".midi" && ".aif" != ".midi" && ".aiff" != ".midi";
    AudioExtensions + MidiExtensions
  }

  /** `file_path.suffix.lower()` for an entry of the scanned folder. */
  function Extension(folder: Path, name: string): string
  {
    Lower(Suffix(Child(folder, name)))
  }

  /** An entry that is neither hidden nor a directory. */
  predicate Visible(e: Entry)
  {
    !IsPrefix(".", e.name) && e.isFile
  }

  predicate IsAudio(folder: Path, e: Entry)
  {
    Visible(e) && Extension(folder, e.name) in AudioExtensions
  }

  /** The `elif` branch: a visible file that is not audio but has a MIDI extension. */
  predicate IsMidi(folder: Path, e: Entry)
  {
    Visible(e) && Extension(folder, e.name) !in AudioExtensions
    && Extension(folder, e.name) in MidiExtensions
  }

  /** The names the loop appends to one list, in listing order. */
  function Selected(entries: seq<Entry>, keep: Entry -> bool): (r: seq<string>)
    ensures |r| <= |entries|
    ensures forall e :: e in entries && keep(e) ==> e.name in r
    ensures forall n :: n in r ==> exists e :: e in entries && keep(e) && e.name == n
    decreases |entries|
  {
    if |entries| == 0 then []
    else
      var rest := Selected(entries[1..], keep);
      assert forall e :: e in entries[1..] ==> e in entries;
      assert forall e :: e in entries ==> e == entries[0] || e in entries[1..];
      if keep(entries[0]) then [entries[0].name] + rest else rest
  }

  // ----- Ordering of names (Python `str` comparison) -----

  /** `a <= b` on strings: lexicographic by code point. */
  predicate Below(a: string, b: string)
    decreases |a|
  {
    |a| == 0 || (|b| > 0 && (a[0] < b[0] || (a[0] == b[0] && Below(a[1..], b[1..]))))
  }

  lemma {:induction false} BelowTotal(a: string, b: string)
    ensures Below(a, b) || Below(b, a)
    decreases |a|
  {
    if |a| > 0 && |b| > 0 && a[0] == b[0] {
      BelowTotal(a[1..], b[1..]);
    }
  }

  lemma {:induction false} BelowTransitive(a: string, b: string, c: string)
    requires Below(a, b) && Below(b, c)
    ensures Below(a, c)
    decreases |a|
  {
    if |a| > 0 && a[0] == b[0] && b[0] == c[0] {
      BelowTransitive(a[1..], b[1..], c[1..]);
    }
  }

  lemma {:induction false} BelowAntisymmetric(a: string, b: string)
    requires Below(a, b) && Below(b, a)
    ensures a == b
    decreases |a|
  {
    if |a| > 0 {
      BelowAntisymmetric(a[1..], b[1..]);
      assert a == [a[0]] + a[1..] && b == [b[0]] + b[1..];
    }
  }

  /** Each name is at most the next one. */
  predicate Sorted(s: seq<string>)
  {
    forall i :: 0 <= i < |s| - 1 ==> Below(s[i], s[i + 1])
  }

  /** Inserts `x` after the names below it. */
  function Insert(x: string, s: seq<string>): (r: seq<string>)
    requires Sorted(s)
    ensures Sorted(r)
    ensures multiset(r) == multiset(s) + multiset{x}
    ensures |r| == |s| + 1
    ensures |r| > 0 && (r[0] == x || (|s| > 0 && r[0] == s[0]))
    decreases |s|
  {
    if |s| == 0 then [x]
    else if Below(x, s[0]) then [x] + s
    else
      BelowTotal(x, s[0]);
      var rest := Insert(x, s[1..]);
      assert s == [s[0]] + s[1..];
      [s[0]] + rest
  }

  /** `list.sort()`: an ascending permutation of the names. */
  function Sort(s: seq<string>): (r: seq<string>)
    ensures Sorted(r)
    ensures multiset(r) == multiset(s)
    decreases |s|
  {
    if |s| == 0 then []
    else
      assert s == [s[0]] + s[1..];
      Insert(s[0], Sort(s[1..]))
  }

  /** The adjacent order extends to every pair. */
  lemma {:induction false} SortedPairwise(s: seq<string>, i: int, j: int)
    requires Sorted(s)
    requires 0 <= i <= j < |s|
    ensures Below(s[i], s[j])
    decreases j - i
  {
    if i == j {
      BelowReflexive(s[i]);
    } else {
      SortedPairwise(s, i + 1, j);
      BelowTransitive(s[i], s[i + 1], s[j]);
    }
  }

  lemma {:induction false} BelowReflexive(a: string)
    ensures Below(a, a)
    decreases |a|
  {
    if |a| > 0 {
      BelowReflexive(a[1..]);
    }
  }

  lemma SortedTail(s: seq<string>)
    requires Sorted(s) && |s| > 0
    ensures Sorted(s[1..])
  {
    forall k | 0 <= k < |s[1..]| - 1
      ensures Below(s[1..][k], s[1..][k + 1])
    {
      assert s[1..][k] == s[k + 1] && s[1..][k + 1] == s[k + 2];
    }
  }

  /** Two sorted arrangements of the same names start with the same name. */
  lemma SortedSameHead(a: seq<string>, b: seq<string>)
    requires Sorted(a) && Sorted(b) && |a| > 0
    requires multiset(a) == multiset(b)
    ensures |b| > 0 && a[0] == b[0]
  {
    assert a[0] in multiset(b);
    var i :| 0 <= i < |b| && b[i] == a[0];
    assert b[0] in multiset(a);
    var j :| 0 <= j < |a| && a[j] == b[0];
    SortedPairwise(b, 0, i);
    SortedPairwise(a, 0, j);
    BelowAntisymmetric(a[0], b[0]);
  }

  lemma TailMultiset(s: seq<string>)
    requires |s| > 0
    ensures multiset(s[1..]) == multiset(s) - multiset{s[0]}
  {
    assert s == [s[0]] + s[1..];
  }

  /** Two sorted arrangements of the same names are the same list. */
  lemma {:induction false} SortedUnique(a: seq<string>, b: seq<string>)
    requires Sorted(a) && Sorted(b)
    requires multiset(a) == multiset(b)
    ensures a == b
    decreases |a|
  {
    if |a| > 0 {
      SortedSameHead(a, b);
      TailMultiset(a);
      TailMultiset(b);
      SortedTail(a);
      SortedTail(b);
      SortedUnique(a[1..], b[1..]);
      assert a == [a[0]] + a[1..] && b == [b[0]] + b[1..];
    } else {
      assert |multiset(b)| == 0;
    }
  }

  /** The paths for names of the scanned folder. */
  function Children(folder: Path, names: seq<string>): (r: seq<Path>)
    ensures |r| == |names|
    ensures forall i :: 0 <= i < |names| ==> r[i] == Child(folder, names[i])
  {
    seq(|names|, i requires 0 <= i < |names| => Child(folder, names[i]))
  }

  /** `scan_folder`. */
  function ScanFolder(folder: Path, listing: Listing): (r: Result<Scan, Error>)
    ensures listing.Absent? ==> r == Err(FileNotFound("Folder not found: " + PathText(folder)))
    ensures listing.NotDirectory? ==> r == Err(NotADirectory("Not a directory: " + PathText(folder)))
    ensures listing.Directory? <==> r.Ok?
    ensures r.Ok? ==>
      var audioNames := Selected(listing.entries, e => IsAudio(folder, e));
      var midiNames := Selected(listing.entries, e => IsMidi(folder, e));
      && |r.value.audio| == |audioNames| && |r.value.midi| == |midiNames|
      && (exists names :: Sorted(names) && multiset(names) == multiset(audioNames)
            && r.value.audio == Children(folder, names))
      && (exists names :: Sorted(names) && multiset(names) == multiset(midiNames)
            && r.value.midi == Children(folder, names))
  {
    match listing
    case Absent => Err(FileNotFound("Folder not found: " + PathText(folder)))
    case NotDirectory => Err(NotADirectory("Not a directory: " + PathText(folder)))
    case Directory(entries) =>
      var audioNames := Sort(Selected(entries, e => IsAudio(folder, e)));
      var midiNames := Sort(Selected(entries, e => IsMidi(folder, e)));
      assert |audioNames| == |multiset(audioNames)|;
      assert |midiNames| == |multiset(midiNames)|;
      Ok(Scan(Children(folder, audioNames), Children(folder, midiNames)))
  }

  /** The paths of a permutation of the selected names are the paths of
      exactly the selected entries. */
  lemma ChildrenOfSelected(folder: Path, entries: seq<Entry>, keep: Entry -> bool, names: seq<string>)
    requires multiset(names) == multiset(Selected(entries, keep))
    ensures forall e :: e in entries && keep(e) ==> Child(folder, e.name) in Children(folder, names)
    ensures forall p :: p in Children(folder, names) ==>
      exists e :: e in entries && keep(e) && p == Child(folder, e.name)
  {
    var ps := Children(folder, names);
    forall e | e in entries && keep(e)
      ensures Child(folder, e.name) in ps
    {
      assert e.name in multiset(names);
      var k :| 0 <= k < |names| && names[k] == e.name;
      assert ps[k] == Child(folder, e.name);
    }
    forall p | p in ps
      ensures exists e :: e in entries && keep(e) && p == Child(folder, e.name)
    {
      var k :| 0 <= k < |ps| && ps[k] == p;
      assert names[k] in multiset(Selected(entries, keep));
      assert names[k] in Selected(entries, keep);
      var e :| e in entries && keep(e) && e.name == names[k];
      assert p == Child(folder, e.name);
    }
  }

  /** A path appears in a list exactly when a visible file with that name
      and an extension of the list's kind is in the listing. */
  lemma ScanSelects(folder: Path, entries: seq<Entry>)
    ensures var r := ScanFolder(folder, Directory(entries));
      && (forall e :: e in entries && IsAudio(folder, e) ==> Child(folder, e.name) in r.value.audio)
      && (forall e :: e in entries && IsMidi(folder, e) ==> Child(folder, e.name) in r.value.midi)
      && (forall p :: p in r.value.audio ==>
            exists e :: e in entries && IsAudio(folder, e) && p == Child(folder, e.name))
      && (forall p :: p in r.value.midi ==>
            exists e :: e in entries && IsMidi(folder, e) && p == Child(folder, e.name))
  {
    var r := ScanFolder(folder, Directory(entries));
    var an :| Sorted(an) && multiset(an) == multiset(Selected(entries, e => IsAudio(folder, e)))
      && r.value.audio == Children(folder, an);
    var mn :| Sorted(mn) && multiset(mn) == multiset(Selected(entries, e => IsMidi(folder, e)))
      && r.value.midi == Children(folder, mn);
    ChildrenOfSelected(folder, entries, e => IsAudio(folder, e), an);
    ChildrenOfSelected(folder, entries, e => IsMidi(folder, e), mn);
  }

  /** No path is in both lists. */
  lemma ScanDisjoint(folder: Path, entries: seq<Entry>)
    ensures var r := ScanFolder(folder, Directory(entries));
      forall p :: p in r.value.audio ==> p !in r.value.midi
  {
    var r := ScanFolder(folder, Directory(entries));
    ScanSelects(folder, entries);
    forall p | p in r.value.audio
      ensures p !in r.value.midi
    {
      var e1 :| e1 in entries && IsAudio(folder, e1) && p == Child(folder, e1.name);
      assert forall e :: e in entries && p == Child(folder, e.name) ==> !IsMidi(folder, e);
    }
  }

  /** The lists are ordered: each is the one ascending arrangement of the
      selected names. */
  lemma ScanOrder(folder: Path, entries: seq<Entry>, audioNames: seq<string>, midiNames: seq<string>)
    requires Sorted(audioNames)
    requires multiset(audioNames) == multiset(Selected(entries, e => IsAudio(folder, e)))
    requires Sorted(midiNames)
    requires multiset(midiNames) == multiset(Selected(entries, e => IsMidi(folder, e)))
    ensures ScanFolder(folder, Directory(entries)) == Ok(Scan(Children(folder, audioNames), Children(folder, midiNames)))
  {
    var r := ScanFolder(folder, Directory(entries));
    var an :| Sorted(an) && multiset(an) == multiset(Selected(entries, e => IsAudio(folder, e)))
      && r.value.audio == Children(folder, an);
    var mn :| Sorted(mn) && multiset(mn) == multiset(Selected(entries, e => IsMidi(folder, e)))
      && r.value.midi == Children(folder, mn);
    SortedUnique(an, audioNames);
    SortedUnique(mn, midiNames);
  }

  /** `s.rfind('.')` sees the same positions in two names that agree after
      lower-casing, since only '.' lower-cases to '.'. */
  lemma {:induction false} RFindDotIgnoresCase(a: string, b: string)
    requires Lower(a) == Lower(b)
    ensures RFind(a, '.') == RFind(b, '.')
    decreases |a|
  {
    if |a| > 0 {
      var n := |a| - 1;
      assert LowerChar(a[n]) == LowerChar(b[n]);
      assert a[n] == '.' <==> b[n] == '.';
      if a[n] != '.' {
        LowerPrefix(a, n);
        LowerPrefix(b, n);
        RFindDotIgnoresCase(a[..n], b[..n]);
      }
    }
  }

  lemma LowerPrefix(s: string, n: nat)
    requires n <= |s|
    ensures Lower(s[..n]) == Lower(s)[..n]
    ensures Lower(s[n..]) == Lower(s)[n..]
  {
  }

  /** Extension matching ignores case: two names that agree after
      lower-casing have the same extension. */
  lemma ExtensionIgnoresCase(folder: Path, a: string, b: string)
    requires Lower(a) == Lower(b)
    ensures Extension(folder, a) == Extension(folder, b)
  {
    RFindDotIgnoresCase(a, b);
    SuffixOfChild(folder, a);
    SuffixOfChild(folder, b);
    var k := RFind(a, '.');
    if 0 < k < |a| - 1 {
      LowerPrefix(a, k);
      LowerPrefix(b, k);
      assert Extension(folder, a) == Lower(a[k..]) == Lower(b[k..]) == Extension(folder, b);
    } else {
      assert Extension(folder, a) == Lower("") == Extension(folder, b);
    }
  }

  lemma SuffixOfChild(folder: Path, name: string)
    ensures Suffix(Child(folder, name)) == if HasSuffixDot(name) then name[RFind(name, '.')..] else ""
  {
    assert Name(Child(folder, name)) == name;
  }

  /** Hidden names stay hidden under a change of case. */
  lemma HiddenIgnoresCase(a: string, b: string)
    requires Lower(a) == Lower(b)
    ensures IsPrefix(".", a) <==> IsPrefix(".", b)
  {
    if |a| > 0 {
      assert LowerChar(a[0]) == LowerChar(b[0]);
      assert a[..1] == [a[0]] && b[..1] == [b[0]];
    }
  }

  /** Two names that agree after lower-casing land in the same list. */
  lemma ClassIgnoresCase(folder: Path, a: string, b: string, isFile: bool)
    requires Lower(a) == Lower(b)
    ensures IsAudio(folder, Entry(a, isFile)) <==> IsAudio(folder, Entry(b, isFile))
    ensures IsMidi(folder, Entry(a, isFile)) <==> IsMidi(folder, Entry(b, isFile))
  {
    ExtensionIgnoresCase(folder, a, b);
    HiddenIgnoresCase(a, b);
    assert Visible(Entry(a, isFile)) <==> Visible(Entry(b, isFile));
  }

  lemma RFindWav(stem: string)
    requires '.' !in stem
    ensures RFind(stem + ".WAV", '.') == |stem|
  {
    var n := stem + ".WAV";
    var k := |stem|;
    assert n[k] == '.' && n[k + 1] == 'W' && n[k + 2] == 'A' && n[k + 3] == 'V';
    assert forall j :: 0 <= j < k ==> n[j] == stem[j];
  }

  lemma LowerWav()
    ensures Lower(".WAV") == ".wav"
  {
    var l := Lower(".WAV");
    assert l[0] == '.' && l[1] == 'w' && l[2] == 'a' && l[3] == 'v';
  }

  lemma ExtensionOfWav(folder: Path, stem: string)
    requires '.' !in stem && |stem| > 0
    ensures Extension(folder, stem + ".WAV") == ".wav"
  {
    var n := stem + ".WAV";
    RFindWav(stem);
    SuffixOfChild(folder, n);
    assert n[|stem|..] == ".WAV";
    LowerWav();
  }

  /** An upper-case extension is still recognised: a visible file named
      `stem + ".WAV"` is audio. */
  lemma UpperCaseWav(folder: Path, stem: string)
    requires '.' !in stem && |stem| > 0
    ensures IsAudio(folder, Entry(stem + ".WAV", true))
  {
    ExtensionOfWav(folder, stem);
    var n := stem + ".WAV";
    assert n[..1] == stem[..1];
    assert Visible(Entry(n, true));
  }
}
