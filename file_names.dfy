/** The two string expressions of main.js: the extension that decides how a
    picked file is previewed (main.js:94-111), and the name of the dummy STEP
    file offered after the simulated conversion (main.js:133-137). */
module FileNames {

  /** The three outcomes of the extension dispatch in handleFileSelect. */
  datatype FileKind = StepFile | SldprtFile | Unsupported

  /** Lower-casing of one character; only the ASCII letters A-Z are folded. */
  function LowerChar(c: char): char
  {
    if 'A' <= c <= 'Z' then (c as int - 'A' as int + 'a' as int) as char else c
  }

  /** `s.toLowerCase()`, character by character. */
  function Lower(s: string): (r: string)
    ensures |r| == |s|
    ensures forall i :: 0 <= i < |s| ==> r[i] == LowerChar(s[i])
  {
    if s == [] then [] else [LowerChar(s[0])] + Lower(s[1..])
  }

  /** `s.split(sep)`: the pieces between separators, left to right; there is
      always at least one piece, and a separator at either end gives an empty
      piece there. */
  function Split(s: string, sep: char): (parts: seq<string>)
    ensures |parts| >= 1
    ensures sep !in s ==> parts == [s]
    ensures sep in s ==> |parts| >= 2
    decreases |s|
  {
    if s == [] then [[]]
    else
      var rest := Split(s[1..], sep);
      if s[0] == sep then [[]] + rest
      else
        assert sep !in s ==> rest == [s[1..]] && [s[0]] + s[1..] == s;
        [[s[0]] + rest[0]] + rest[1..]
  }

  /** The inverse of Split: the pieces glued back with the separator. */
  function Join(parts: seq<string>, sep: char): string
    requires |parts| >= 1
  {
    if |parts| == 1 then parts[0] else parts[0] + [sep] + Join(parts[1..], sep)
  }

  /** `xs.pop()` on a non-empty array, as a value: its last element. */
  function Last<T>(xs: seq<T>): T
    requires |xs| >= 1
  {
    xs[|xs| - 1]
  }

  /** `file.name.split('.').pop().toLowerCase()` (main.js:94). */
  function Extension(name: string): string
  {
    Lower(Last(Split(name, '.')))
  }

  /** The comparisons of main.js:96 and main.js:104. */
  function KindOfExtension(ext: string): FileKind
  {
    if ext == "stp" || ext == "step" then StepFile
    else if ext == "sldprt" then SldprtFile
    else Unsupported
  }

  function Classify(name: string): FileKind
  {
    KindOfExtension(Extension(name))
  }

  /** Where the regular expression /\.[^/.]+$/ matches `s`: a dot at index i,
      followed by at least one character, none of which is a dot or a slash,
      up to the end of the string. */
  predicate ExtensionMatchAt(s: string, i: int)
  {
    0 <= i < |s| - 1 && s[i] == '.' &&
    forall j :: i < j < |s| ==> s[j] != '.' && s[j] != '/'
  }

  /** `s.replace(/\.[^/.]+$/, "")`, computed from the last dot-separated
      piece; StripAtMatch and StripWithoutMatch tie it to the regular
      expression. */
  function StripExtension(s: string): (r: string)
    ensures |r| <= |s| && r == s[..|r|]
    ensures |r| < |s| ==> ExtensionMatchAt(s, |r|)
  {
    StripFindsMatch(s);
    var e := Last(Split(s, '.'));
    if |e| < |s| && |e| > 0 && '/' !in e then s[..|s| - |e| - 1] else s
  }

  /** `stpFileName` of main.js:133. */
  function DownloadName(fileName: string): string
  {
    StripExtension(fileName) + ".stp"
  }

  /** The link label of main.js:137. */
  function LinkText(fileName: string): string
  {
    "Download " + DownloadName(fileName)
  }

  // ---------------------------------------------------------------------------
  // Split and its last piece

  lemma {:induction false} JoinSplit(s: string, sep: char)
    ensures Join(Split(s, sep), sep) == s
    decreases |s|
  {
    if s != [] {
      var rest := Split(s[1..], sep);
      JoinSplit(s[1..], sep);
      if s[0] == sep {
        assert Split(s, sep)[1..] == rest;
      } else {
        var parts := Split(s, sep);
        if |rest| == 1 {
          assert parts == [[s[0]] + rest[0]];
        } else {
          assert parts[1..] == rest[1..];
          assert Join(rest, sep) == rest[0] + [sep] + Join(rest[1..], sep);
        }
      }
    }
  }

  /** The last piece of `s.split(sep)` is the longest suffix of `s` free of
      `sep`: it ends `s`, holds no separator, and is either all of `s` or
      preceded by a separator. */
  lemma {:induction false} LastPieceIsFinalSegment(s: string, sep: char)
    ensures var e := Last(Split(s, sep));
      |e| <= |s| && e == s[|s| - |e|..] && sep !in e &&
      (|e| == |s| || s[|s| - |e| - 1] == sep)
    decreases |s|
  {
    if s != [] {
      var parts := Split(s, sep);
      var rest := Split(s[1..], sep);
      LastPieceIsFinalSegment(s[1..], sep);
      var e' := Last(rest);
      if s[0] != sep && |rest| == 1 {
        assert sep !in s[1..];
        assert rest == [s[1..]];
        assert parts == [[s[0]] + s[1..]];
        assert [s[0]] + s[1..] == s;
      } else {
        assert Last(parts) == e' by {
          if s[0] == sep {
            assert parts == [[]] + rest;
          } else {
            assert parts == [[s[0]] + rest[0]] + rest[1..];
          }
        }
        assert s[1..][|s| - 1 - |e'|..] == s[|s| - |e'|..];
        if |e'| == |s| - 1 {
          assert e' == s[1..];
        } else {
          assert s[|s| - |e'| - 1] == s[1..][|s| - 1 - |e'| - 1];
        }
      }
    }
  }

  /** The piece after the last separator is fixed by any decomposition
      `stem + [sep] + tail` whose tail holds no separator. */
  lemma LastPieceAfterSeparator(stem: string, sep: char, tail: string)
    requires sep !in tail
    ensures Last(Split(stem + [sep] + tail, sep)) == tail
  {
    var s := stem + [sep] + tail;
    LastPieceIsFinalSegment(s, sep);
    var e := Last(Split(s, sep));
    assert s[|s| - |tail| - 1] == sep;
    assert |e| == |tail|;
    assert s[|s| - |tail|..] == tail;
  }

  // ---------------------------------------------------------------------------
  // The extension and the dispatch

  /** A name with a dot: the extension is the lower-cased text after the
      last dot. */
  lemma ExtensionOfDotted(stem: string, ext: string)
    requires '.' !in ext
    ensures Extension(stem + "." + ext) == Lower(ext)
  {
    LastPieceAfterSeparator(stem, '.', ext);
  }

  /** A name without a dot: the extension is the whole lower-cased name. */
  lemma ExtensionOfUndotted(name: string)
    requires '.' !in name
    ensures Extension(name) == Lower(name)
  {
  }

  /** The extension never holds a dot, so a second dispatch on it cannot
      disagree with the first. */
  lemma ExtensionHasNoDot(name: string)
    ensures '.' !in Extension(name)
  {
    LastPieceIsFinalSegment(name, '.');
    var e := Last(Split(name, '.'));
    forall i | 0 <= i < |e| ensures Extension(name)[i] != '.' {
      assert e[i] != '.';
    }
  }

  /** Upper-case and dot-less names take the STEP branch too. Each name is
      written as its stem, a dot and its extension. */
  lemma ClassifyStepExamples()
    ensures Classify("part" + "." + "stp") == StepFile
    ensures Classify("PART" + "." + "STEP") == StepFile
    ensures Classify("st" + "ep") == StepFile
  {
    ExtensionOfDotted("part", "stp");
    ExtensionOfDotted("PART", "STEP");
    ExtensionOfUndotted("st" + "ep");
  }

  lemma ClassifyOtherExamples()
    ensures Classify("part" + "." + "SLDPRT") == SldprtFile
    ensures Classify("drawing" + "." + "dwg") == Unsupported
  {
    ExtensionOfDotted("part", "SLDPRT");
    ExtensionOfDotted("drawing", "dwg");
  }

  /** Only the last extension counts. */
  lemma ClassifyUsesLastExtension()
    ensures Classify("archive.step" + "." + "zip") == Unsupported
    ensures Classify("part.zip" + "." + "step") == StepFile
  {
    ExtensionOfDotted("archive.step", "zip");
    ExtensionOfDotted("part.zip", "step");
  }

  // ---------------------------------------------------------------------------
  // The download name

  /** Wherever the regular expression matches, the replacement keeps exactly
      the text before the match. */
  lemma StripAtMatch(s: string, i: int)
    requires ExtensionMatchAt(s, i)
    ensures StripExtension(s) == s[..i]
  {
    var tail := s[i + 1..];
    assert s == s[..i] + "." + tail;
    assert '.' !in tail by {
      forall k | 0 <= k < |tail| ensures tail[k] != '.' {
        assert tail[k] == s[i + 1 + k];
      }
    }
    assert '/' !in tail by {
      forall k | 0 <= k < |tail| ensures tail[k] != '/' {
        assert tail[k] == s[i + 1 + k];
      }
    }
    LastPieceAfterSeparator(s[..i], '.', tail);
  }

  /** When StripExtension removes anything, the regular expression matches
      at the dot it removes from. */
  lemma StripFindsMatch(s: string)
    ensures var e := Last(Split(s, '.'));
      |e| < |s| && |e| > 0 && '/' !in e ==> ExtensionMatchAt(s, |s| - |e| - 1)
  {
    LastPieceIsFinalSegment(s, '.');
    var e := Last(Split(s, '.'));
    if |e| < |s| && |e| > 0 && '/' !in e {
      var i := |s| - |e| - 1;
      forall j | i < j < |s| ensures s[j] != '.' && s[j] != '/' {
        assert s[j] == e[j - i - 1];
      }
    }
  }

  /** Where the regular expression does not match, nothing is replaced. */
  lemma StripWithoutMatch(s: string)
    requires forall i :: !ExtensionMatchAt(s, i)
    ensures StripExtension(s) == s
  {
    StripFindsMatch(s);
  }

  /** The regular expression matches in at most one place, so replacing its
      first match is the same as replacing any match. */
  lemma MatchIsUnique(s: string, i: int, j: int)
    requires ExtensionMatchAt(s, i) && ExtensionMatchAt(s, j)
    ensures i == j
  {
  }

  /** The round trip of the conversion: a name with a non-empty final
      extension free of dots and slashes comes back with that extension
      replaced by ".stp"; everything before the last dot is kept. */
  lemma DownloadNameReplacesExtension(stem: string, ext: string)
    requires |ext| > 0 && '.' !in ext && '/' !in ext
    ensures DownloadName(stem + "." + ext) == stem + ".stp"
    ensures LinkText(stem + "." + ext) == "Download " + stem + ".stp"
  {
    var s := stem + "." + ext;
    forall j | |stem| < j < |s| ensures s[j] != '.' && s[j] != '/' {
      assert s[j] == ext[j - |stem| - 1];
    }
    StripAtMatch(s, |stem|);
    assert s[..|stem|] == stem;
  }

  /** A name with no dot keeps all of its text and gains ".stp". */
  lemma DownloadNameOfUndotted(name: string)
    requires '.' !in name
    ensures DownloadName(name) == name + ".stp"
  {
  }

  /** Converting the name of a converted file changes nothing. */
  lemma DownloadNameIdempotent(name: string)
    ensures DownloadName(DownloadName(name)) == DownloadName(name)
  {
    var stem := StripExtension(name);
    assert DownloadName(name) == stem + "." + "stp";
    DownloadNameReplacesExtension(stem, "stp");
  }

  /** The offered file would itself take the STEP branch if picked. */
  lemma DownloadNameIsStep(name: string)
    ensures Classify(DownloadName(name)) == StepFile
  {
    var stem := StripExtension(name);
    assert DownloadName(name) == stem + "." + "stp";
    ExtensionOfDotted(stem, "stp");
  }

  /** Names are written as stem, dot and extension where they have one. */
  lemma DownloadNameExamples()
    ensures DownloadName("part" + "." + "sldprt") == "part" + ".stp"
    ensures DownloadName("a.b" + "." + "sldprt") == "a.b" + ".stp"
    ensures LinkText("part" + "." + "sldprt") == "Download " + "part" + ".stp"
  {
    DownloadNameReplacesExtension("part", "sldprt");
    DownloadNameReplacesExtension("a.b", "sldprt");
  }

  lemma DownloadNameOfNoext()
    ensures DownloadName("no" + "ext") == "noext" + ".stp"
  {
    DownloadNameOfUndotted("no" + "ext");
  }

  /** A trailing dot, or a dot before the last slash, is not an extension:
      the whole name is kept. */
  lemma DownloadNameWithoutExtension()
    ensures DownloadName("part" + ".") == "part." + ".stp"
    ensures DownloadName("v1.0/" + "part") == "v1.0/part" + ".stp"
  {
    var p := "part" + ".";
    assert !ExtensionMatchAt(p, 4);
    StripWithoutMatch(p);
    var s := "v1.0/" + "part";
    assert s[4] == '/';
    forall i ensures !ExtensionMatchAt(s, i) {
      if 0 <= i < 4 {
        assert s[4] == '/';
      } else if 4 <= i < |s| {
        assert s[i] != '.';
      }
    }
    StripWithoutMatch(s);
  }
}
