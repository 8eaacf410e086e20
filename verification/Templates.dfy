/** Placeholder substitution in AppleScript templates (`_load_and_substitute`). */
module Templates {
  import opened Text

  /** The placeholder text for `key`: `{key}`. */
  function Braced(key: string): (r: string)
    ensures |r| == |key| + 2 && r[0] == '{' && r[|r| - 1] == '}'
    ensures r[1..|r| - 1] == key
  {
    "{" + key + "}"
  }

  /** Each `(key, value)` pair, in the dictionary's insertion order, replaces
      every occurrence of `{key}` in the current content by `value`. */
  function Substitute(content: string, placeholders: seq<(string, string)>): string
    decreases |placeholders|
  {
    if |placeholders| == 0 then content
    else
      Substitute(ReplaceAll(content, Braced(placeholders[0].0), placeholders[0].1), placeholders[1..])
  }

  /** Neither brace occurs in `s`. */
  predicate BraceFree(s: string)
  {
    '{' !in s && '}' !in s
  }

  /** A template seen as literal text and placeholder holes. */
  datatype Token = Lit(text: string) | Hole(key: string)

  /** Literal text holds no `{` and hole names hold no brace. */
  predicate WellFormed(tokens: seq<Token>)
  {
    forall i :: 0 <= i < |tokens| ==>
      match tokens[i]
      case Lit(t) => '{' !in t
      case Hole(k) => BraceFree(k)
  }

  /** Hole names hold no brace. */
  predicate HolesNamed(tokens: seq<Token>)
  {
    forall i :: 0 <= i < |tokens| && tokens[i].Hole? ==> BraceFree(tokens[i].key)
  }

  /** No occurrence of `{key}` starts inside literal text: literal braces,
      such as AppleScript's `{command down}`, are allowed as long as they
      do not spell the placeholder, alone or together with what follows. */
  predicate OnlyInHoles(tokens: seq<Token>, key: string)
  {
    forall i, j :: 0 <= i < |tokens| && tokens[i].Lit? && 0 <= j < |tokens[i].text| ==>
      !IsPrefix(Braced(key), tokens[i].text[j..] + Render(tokens[i + 1..]))
  }

  /** The template text of a token list. */
  function Render(tokens: seq<Token>): string
    decreases |tokens|
  {
    if |tokens| == 0 then ""
    else
      match tokens[0]
      case Lit(t) => t + Render(tokens[1..])
      case Hole(k) => Braced(k) + Render(tokens[1..])
  }

  /** Fills the holes named `key` with `value`, leaving the rest as they are. */
  function FillOne(tokens: seq<Token>, key: string, value: string): (r: seq<Token>)
    ensures |r| == |tokens|
    ensures forall i :: 0 <= i < |tokens| ==>
      r[i] == (if tokens[i] == Hole(key) then Lit(value) else tokens[i])
    decreases |tokens|
  {
    if |tokens| == 0 then []
    else [if tokens[0] == Hole(key) then Lit(value) else tokens[0]] + FillOne(tokens[1..], key, value)
  }

  /** Fills holes for each placeholder in turn. */
  function Fill(tokens: seq<Token>, placeholders: seq<(string, string)>): seq<Token>
    decreases |placeholders|
  {
    if |placeholders| == 0 then tokens
    else Fill(FillOne(tokens, placeholders[0].0, placeholders[0].1), placeholders[1..])
  }

  /** Text that cannot start the pattern passes through replacement unchanged. */
  lemma {:induction false} ReplaceSkips(s: string, x: string, pat: string, rep: string)
    requires |pat| > 0 && pat[0] !in s
    ensures ReplaceAll(s + x, pat, rep) == s + ReplaceAll(x, pat, rep)
    decreases |s|
  {
    if |s| > 0 {
      assert (s + x)[0] == s[0] != pat[0];
      assert !IsPrefix(pat, s + x);
      assert (s + x)[1..] == s[1..] + x;
      ReplaceSkips(s[1..], x, pat, rep);
      assert [s[0]] + (s[1..] + ReplaceAll(x, pat, rep)) == s + ReplaceAll(x, pat, rep);
    } else {
      assert s + x == x;
    }
  }

  /** Text in which no occurrence starts passes through replacement unchanged. */
  lemma {:induction false} ReplaceSkipsClean(s: string, x: string, pat: string, rep: string)
    requires |pat| > 0
    requires forall j :: 0 <= j < |s| ==> !IsPrefix(pat, s[j..] + x)
    ensures ReplaceAll(s + x, pat, rep) == s + ReplaceAll(x, pat, rep)
    decreases |s|
  {
    if |s| > 0 {
      assert s[0..] == s;
      assert !IsPrefix(pat, s + x);
      assert (s + x)[1..] == s[1..] + x;
      forall j | 0 <= j < |s[1..]|
        ensures !IsPrefix(pat, s[1..][j..] + x)
      {
        assert s[1..][j..] == s[j + 1..];
      }
      ReplaceSkipsClean(s[1..], x, pat, rep);
      assert [s[0]] + (s[1..] + ReplaceAll(x, pat, rep)) == s + ReplaceAll(x, pat, rep);
    } else {
      assert s + x == x;
    }
  }

  /** An occurrence at the head is replaced and scanning resumes after it. */
  lemma ReplaceAtHead(x: string, pat: string, rep: string)
    requires |pat| > 0
    ensures ReplaceAll(pat + x, pat, rep) == rep + ReplaceAll(x, pat, rep)
  {
    assert IsPrefix(pat, pat + x);
    assert (pat + x)[|pat|..] == x;
  }

  /** The first `c` of a string is found inside any prefix that holds one. */
  lemma IndexOfInPrefix(p: string, t: string, c: char)
    requires IsPrefix(p, t) && IndexOf(p, c) < |p|
    ensures IndexOf(t, c) == IndexOf(p, c)
  {
    var i := IndexOf(p, c);
    assert t[i] == p[i] == c;
    assert forall j :: 0 <= j < i ==> t[j] == p[j];
  }

  /** A brace-free placeholder that starts `{k}...` is `{k}` itself. */
  lemma BracedPrefix(k: string, key: string, x: string)
    requires BraceFree(k) && BraceFree(key)
    requires IsPrefix(Braced(key), Braced(k) + x)
    ensures k == key
  {
    var pat := Braced(key);
    var s := Braced(k) + x;
    assert pat[1..] == key + "}";
    assert s[1..] == k + ("}" + x);
    IndexOfAfter(key, "}", '}');
    IndexOfAfter(k, "}" + x, '}');
    assert IsPrefix(pat[1..], s[1..]);
    IndexOfInPrefix(pat[1..], s[1..], '}');
    assert |k| == |key|;
    assert key == pat[1..|pat| - 1] == s[1..|pat| - 1] == k;
  }

  /** The placeholder of a different brace-free name is not an occurrence. */
  lemma OtherHoleKept(k: string, key: string, x: string, rep: string)
    requires BraceFree(k) && BraceFree(key) && k != key
    ensures ReplaceAll(Braced(k) + x, Braced(key), rep) == Braced(k) + ReplaceAll(x, Braced(key), rep)
  {
    var pat := Braced(key);
    var s := Braced(k) + x;
    assert IsPrefix(pat, s) ==> k == key by {
      if IsPrefix(pat, s) {
        BracedPrefix(k, key, x);
      }
    }
    assert s[1..] == (k + "}") + x;
    ReplaceSkips(k + "}", x, pat, rep);
    assert [s[0]] + ((k + "}") + ReplaceAll(x, pat, rep)) == Braced(k) + ReplaceAll(x, pat, rep);
  }

  /** Replacing `{key}` in a rendered template is filling its `key` holes,
      provided no occurrence of `{key}` starts in literal text. */
  lemma {:induction false} SubstituteOne(tokens: seq<Token>, key: string, value: string)
    requires HolesNamed(tokens) && BraceFree(key) && OnlyInHoles(tokens, key)
    ensures ReplaceAll(Render(tokens), Braced(key), value) == Render(FillOne(tokens, key, value))
    decreases |tokens|
  {
    if |tokens| > 0 {
      var rest := tokens[1..];
      assert HolesNamed(rest) by {
        forall i | 0 <= i < |rest| && rest[i].Hole?
          ensures BraceFree(rest[i].key)
        {
          assert rest[i] == tokens[i + 1];
        }
      }
      assert OnlyInHoles(rest, key) by {
        forall i, j | 0 <= i < |rest| && rest[i].Lit? && 0 <= j < |rest[i].text|
          ensures !IsPrefix(Braced(key), rest[i].text[j..] + Render(rest[i + 1..]))
        {
          assert rest[i] == tokens[i + 1] && rest[i + 1..] == tokens[i + 2..];
        }
      }
      SubstituteOne(rest, key, value);
      var filled := FillOne(tokens, key, value);
      assert filled[1..] == FillOne(rest, key, value);
      match tokens[0]
      case Lit(t) =>
        forall j | 0 <= j < |t|
          ensures !IsPrefix(Braced(key), t[j..] + Render(rest))
        {
          assert tokens[0].text[j..] + Render(tokens[0 + 1..]) == t[j..] + Render(rest);
        }
        ReplaceSkipsClean(t, Render(rest), Braced(key), value);
      case Hole(k) =>
        assert BraceFree(k) by { assert tokens[0].Hole?; }
        if k == key {
          ReplaceAtHead(Render(rest), Braced(key), value);
        } else {
          OtherHoleKept(k, key, Render(rest), value);
        }
    }
  }

  /** A template whose literal text has no `{` meets `SubstituteOne`'s conditions. */
  lemma WellFormedOnlyInHoles(tokens: seq<Token>, key: string)
    requires WellFormed(tokens)
    ensures HolesNamed(tokens) && OnlyInHoles(tokens, key)
  {
    forall i | 0 <= i < |tokens| && tokens[i].Hole?
      ensures BraceFree(tokens[i].key)
    {
      assert match tokens[i] case Lit(t) => '{' !in t case Hole(k) => BraceFree(k);
    }
    forall i, j | 0 <= i < |tokens| && tokens[i].Lit? && 0 <= j < |tokens[i].text|
      ensures !IsPrefix(Braced(key), tokens[i].text[j..] + Render(tokens[i + 1..]))
    {
      assert match tokens[i] case Lit(t) => '{' !in t case Hole(k) => BraceFree(k);
      assert (tokens[i].text[j..] + Render(tokens[i + 1..]))[0] == tokens[i].text[j] != '{';
    }
  }

  /** Filling keeps a template well formed when the value has no `{`. */
  lemma FillOneWellFormed(tokens: seq<Token>, key: string, value: string)
    requires WellFormed(tokens) && '{' !in value
    ensures WellFormed(FillOne(tokens, key, value))
  {
    var r := FillOne(tokens, key, value);
    forall i | 0 <= i < |r|
      ensures match r[i] case Lit(t) => '{' !in t case Hole(k) => BraceFree(k)
    {
      assert r[i] == (if tokens[i] == Hole(key) then Lit(value) else tokens[i]);
    }
  }

  /** Names are brace-free and values have no `{`. */
  predicate PlainPlaceholders(placeholders: seq<(string, string)>)
  {
    forall i :: 0 <= i < |placeholders| ==>
      BraceFree(placeholders[i].0) && '{' !in placeholders[i].1
  }

  /** With plain names and values, substituting into a rendered template
      fills exactly the holes whose names are given. */
  lemma {:induction false} SubstituteFills(tokens: seq<Token>, placeholders: seq<(string, string)>)
    requires WellFormed(tokens) && PlainPlaceholders(placeholders)
    ensures Substitute(Render(tokens), placeholders) == Render(Fill(tokens, placeholders))
    decreases |placeholders|
  {
    if |placeholders| > 0 {
      var (key, value) := placeholders[0];
      assert BraceFree(key) && '{' !in value;
      WellFormedOnlyInHoles(tokens, key);
      SubstituteOne(tokens, key, value);
      FillOneWellFormed(tokens, key, value);
      assert PlainPlaceholders(placeholders[1..]) by {
        forall i | 0 <= i < |placeholders[1..]|
          ensures BraceFree(placeholders[1..][i].0) && '{' !in placeholders[1..][i].1
        {
          assert placeholders[1..][i] == placeholders[i + 1];
        }
      }
      SubstituteFills(FillOne(tokens, key, value), placeholders[1..]);
    }
  }

  /** A hole survives filling exactly when no placeholder names it. */
  lemma {:induction false} FillLeavesUnnamed(tokens: seq<Token>, placeholders: seq<(string, string)>, k: string)
    ensures Hole(k) in Fill(tokens, placeholders) <==>
      Hole(k) in tokens && forall i :: 0 <= i < |placeholders| ==> placeholders[i].0 != k
    decreases |placeholders|
  {
    if |placeholders| > 0 {
      var (key, value) := placeholders[0];
      var once := FillOne(tokens, key, value);
      FillLeavesUnnamed(once, placeholders[1..], k);
      assert Hole(k) in once <==> Hole(k) in tokens && key != k by {
        if Hole(k) in once {
          var i :| 0 <= i < |once| && once[i] == Hole(k);
          assert tokens[i] == Hole(k) && key != k;
        }
        if Hole(k) in tokens && key != k {
          var i :| 0 <= i < |tokens| && tokens[i] == Hole(k);
          assert once[i] == Hole(k);
        }
      }
      assert (forall i :: 0 <= i < |placeholders| ==> placeholders[i].0 != k) <==>
        key != k && (forall i :: 0 <= i < |placeholders[1..]| ==> placeholders[1..][i].0 != k) by {
        if key != k && (forall i :: 0 <= i < |placeholders[1..]| ==> placeholders[1..][i].0 != k) {
          forall i | 0 < i < |placeholders|
            ensures placeholders[i].0 != k
          {
            assert placeholders[i] == placeholders[1..][i - 1];
          }
        }
      }
    }
  }

  lemma {:induction false} FillWellFormed(tokens: seq<Token>, placeholders: seq<(string, string)>)
    requires WellFormed(tokens) && PlainPlaceholders(placeholders)
    ensures WellFormed(Fill(tokens, placeholders))
    decreases |placeholders|
  {
    if |placeholders| > 0 {
      FillOneWellFormed(tokens, placeholders[0].0, placeholders[0].1);
      assert PlainPlaceholders(placeholders[1..]) by {
        forall i | 0 <= i < |placeholders[1..]|
          ensures BraceFree(placeholders[1..][i].0) && '{' !in placeholders[1..][i].1
        {
          assert placeholders[1..][i] == placeholders[i + 1];
        }
      }
      FillWellFormed(FillOne(tokens, placeholders[0].0, placeholders[0].1), placeholders[1..]);
    }
  }

  /** A well-formed template without holes renders without `{`. */
  lemma {:induction false} RenderLiterals(tokens: seq<Token>)
    requires WellFormed(tokens)
    requires forall i :: 0 <= i < |tokens| ==> tokens[i].Lit?
    ensures '{' !in Render(tokens)
    decreases |tokens|
  {
    if |tokens| > 0 {
      var rest := tokens[1..];
      assert WellFormed(rest) by {
        forall i | 0 <= i < |rest|
          ensures match rest[i] case Lit(t) => '{' !in t case Hole(k) => BraceFree(k)
        {
          assert rest[i] == tokens[i + 1];
        }
      }
      assert forall i :: 0 <= i < |rest| ==> rest[i] == tokens[i + 1];
      RenderLiterals(rest);
      assert tokens[0].Lit? && '{' !in tokens[0].text;
    }
  }

  /** When every hole is named by some placeholder, substitution leaves no
      placeholder behind. */
  lemma SubstituteCompletes(tokens: seq<Token>, placeholders: seq<(string, string)>)
    requires WellFormed(tokens) && PlainPlaceholders(placeholders)
    requires forall i :: 0 <= i < |tokens| && tokens[i].Hole? ==>
      exists j :: 0 <= j < |placeholders| && placeholders[j].0 == tokens[i].key
    ensures '{' !in Substitute(Render(tokens), placeholders)
  {
    SubstituteFills(tokens, placeholders);
    FillWellFormed(tokens, placeholders);
    var filled := Fill(tokens, placeholders);
    forall i | 0 <= i < |filled|
      ensures filled[i].Lit?
    {
      if filled[i].Hole? {
        var k := filled[i].key;
        FillLeavesUnnamed(tokens, placeholders, k);
        assert false;
      }
    }
    RenderLiterals(filled);
  }

  /** Content in which no placeholder of the given keys occurs is left unchanged. */
  lemma {:induction false} SubstituteWithoutPlaceholders(content: string, placeholders: seq<(string, string)>)
    requires forall i :: 0 <= i < |placeholders| ==> !Contains(content, Braced(placeholders[i].0))
    ensures Substitute(content, placeholders) == content
    decreases |placeholders|
  {
    if |placeholders| > 0 {
      ReplaceAllAbsent(content, Braced(placeholders[0].0), placeholders[0].1);
      forall i | 0 <= i < |placeholders[1..]|
        ensures !Contains(content, Braced(placeholders[1..][i].0))
      {
        assert placeholders[1..][i] == placeholders[i + 1];
      }
      SubstituteWithoutPlaceholders(content, placeholders[1..]);
    }
  }

  /** Replacements cascade: a value that spells a later placeholder is
      replaced again when that placeholder's turn comes. */
  lemma SubstituteCascades(k1: string, k2: string, v: string)
    ensures Substitute(Braced(k1), [(k1, Braced(k2)), (k2, v)]) == v
  {
    var ps := [(k1, Braced(k2)), (k2, v)];
    ReplaceAtHead("", Braced(k1), Braced(k2));
    assert Braced(k1) + "" == Braced(k1) && Braced(k2) + "" == Braced(k2) && v + "" == v;
    assert ReplaceAll(Braced(k1), Braced(k1), Braced(k2)) == Braced(k2);
    ReplaceAtHead("", Braced(k2), v);
    assert ReplaceAll(Braced(k2), Braced(k2), v) == v;
    assert ps[1..] == [(k2, v)] && ps[1..][1..] == [];
    assert Substitute(Braced(k2), ps[1..]) == Substitute(v, []);
  }
}
