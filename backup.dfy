/** `make_backup` of comma/comma.py: derive a sibling name for a file by
    inserting a suffix before its extension, step past names already taken,
    and copy the file there. */
module Backup {
  import opened Common
  import opened Files

  /** The strftime template make_backup defaults to. */
  const DefaultTemplate := "%y%m%d"

  // Messages of the Python runtime for the as-written failures.
  const StrftimeNoneMsg := "strftime() argument 1 must be str, not None"
  const ConcatIntMsg := "can only concatenate str (not \"int\") to str"

  // ---------------------------------------------------------------------
  // Name derivation

  /** The position of the last '.' in `s`, or -1 when there is none. */
  function LastDot(s: string): (r: int)
    ensures -1 <= r < |s|
    ensures r >= 0 ==> s[r] == '.'
    ensures forall k :: r < k < |s| ==> s[k] != '.'
    decreases |s|
  {
    if s == [] then -1
    else if s[|s| - 1] == '.' then |s| - 1
    else
      var r := LastDot(s[..|s| - 1]);
      assert forall k :: 0 <= k < |s| - 1 ==> s[..|s| - 1][k] == s[k];
      r
  }

  /** `s.rpartition('.')`: the text before the last '.', the separator, and
      the text after it; ("", "", s) when `s` holds no '.'. */
  function RPartition(s: string): (r: (string, string, string))
    ensures r.0 + r.1 + r.2 == s
    ensures r.1 == "" || r.1 == "."
    ensures r.1 == "" ==> r.0 == "" && forall k :: 0 <= k < |s| ==> s[k] != '.'
    ensures forall k :: 0 <= k < |r.2| ==> r.2[k] != '.'
  {
    var k := LastDot(s);
    if k < 0 then ("", "", s) else (s[..k], ".", s[k + 1..])
  }

  /** The (name, ext) make_backup derives from a path: when nothing precedes
      the last '.', or there is no '.', the two parts swap. */
  function SplitName(original: string): (r: (string, string))
    ensures r.1 != "" ==> r.0 != "" && r.0 + "." + r.1 == original
    ensures forall k :: 0 <= k < |r.1| ==> r.1[k] != '.'
    ensures r.1 == "" ==> r.0 == original || "." + r.0 == original || (r.0 != "" && r.0 + "." == original)
  {
    var (name, _, ext) := RPartition(original);
    if name == "" then (ext, name) else (name, ext)
  }

  /** `"%s_{}.%s" % (name, ext)` filled with `suffix`, read as intended. */
  function BackupPath(name: string, ext: string, suffix: string): string
  {
    name + "_" + suffix + "." + ext
  }

  /** Python's `str(n)` for a natural number. */
  function DecimalString(n: nat): (s: string)
    ensures |s| >= 1
    ensures n >= 10 ==> |s| >= 2
    decreases n
  {
    if n < 10 then [(48 + n) as char]
    else DecimalString(n / 10) + [(48 + n % 10) as char]
  }

  /** The k-th name make_backup tries: the plain suffix first, then the
      suffix followed by `_1`, `_2`, ... */
  function Candidate(name: string, ext: string, suffix: string, k: nat): string
  {
    BackupPath(name, ext, if k == 0 then suffix else suffix + "_" + DecimalString(k))
  }

  /** Distinct numbers have distinct decimal spellings. */
  lemma {:induction false} DecimalStringInjective(a: nat, b: nat)
    requires DecimalString(a) == DecimalString(b)
    ensures a == b
    decreases a
  {
    var sa, sb := DecimalString(a), DecimalString(b);
    if a < 10 && b < 10 {
      assert sa[0] == sb[0];
    } else if a >= 10 && b >= 10 {
      assert sa[|sa| - 1] == sb[|sb| - 1];
      assert a % 10 == b % 10;
      assert sa[..|sa| - 1] == DecimalString(a / 10);
      assert sb[..|sb| - 1] == DecimalString(b / 10);
      DecimalStringInjective(a / 10, b / 10);
    }
  }

  /** The candidates make_backup tries are pairwise distinct. */
  lemma CandidatesDistinct(name: string, ext: string, suffix: string, j: nat, k: nat)
    requires j != k
    ensures Candidate(name, ext, suffix, j) != Candidate(name, ext, suffix, k)
  {
    var cj, ck := Candidate(name, ext, suffix, j), Candidate(name, ext, suffix, k);
    var p := name + "_" + suffix;
    if j > 0 && k > 0 && cj == ck {
      var dj, dk := DecimalString(j), DecimalString(k);
      assert cj == p + "_" + dj + "." + ext;
      assert ck == p + "_" + dk + "." + ext;
      assert |dj| == |dk|;
      assert cj[|p| + 1..|p| + 1 + |dj|] == dj;
      assert ck[|p| + 1..|p| + 1 + |dk|] == dk;
      DecimalStringInjective(j, k);
    } else if j == 0 && k > 0 {
      assert |cj| < |ck|;
    } else if k == 0 && j > 0 {
      assert |ck| < |cj|;
    }
  }

  /** A path with a stem before its last '.' gets the suffix inserted before
      the extension: `data.csv` becomes `data_<suffix>.csv`. */
  lemma DottedNameGetsSuffixBeforeExtension(stem: string, ext: string, suffix: string)
    requires stem != "" && '.' !in ext
    ensures SplitName(stem + "." + ext) == (stem, ext)
    ensures Candidate(stem, ext, suffix, 0) == stem + "_" + suffix + "." + ext
  {
    var s := stem + "." + ext;
    assert s[|stem|] == '.';
    assert forall i :: |stem| < i < |s| ==> s[i] == ext[i - |stem| - 1];
    assert LastDot(s) == |stem|;
    assert s[..|stem|] == stem && s[|stem| + 1..] == ext;
  }

  /** A path without a '.' gets the suffix appended and a trailing '.':
      `notes` becomes `notes_<suffix>.`. */
  lemma UndottedNameGetsTrailingDot(path: string, suffix: string)
    requires '.' !in path
    ensures SplitName(path) == (path, "")
    ensures Candidate(path, "", suffix, 0) == path + "_" + suffix + "."
  {
  }

  /** A path whose only '.' leads it loses that '.': `.env` becomes
      `env_<suffix>.`. */
  lemma LeadingDotIsDropped(rest: string, suffix: string)
    requires '.' !in rest
    ensures SplitName("." + rest) == (rest, "")
    ensures Candidate(rest, "", suffix, 0) == rest + "_" + suffix + "."
  {
    var s := "." + rest;
    assert s[1..] == rest;
    assert s[0] == '.';
    assert forall i :: 0 < i < |s| ==> s[i] == rest[i - 1];
    assert LastDot(s) == 0;
  }

  // ---------------------------------------------------------------------
  // make_backup as written

  /** No replacement-field syntax in `s`. */
  predicate NoBraces(s: string)
  {
    '{' !in s && '}' !in s
  }

  function Prepend(s: string, r: Result<string>): Result<string>
  {
    match r
    case Ok(t) => Ok(s + t)
    case Err(e) => Err(e)
  }

  /** `template.format(arg)` for make_backup's template, which holds one `{}`
      of its own: `{{` and `}}` stand for single braces, the first `{}` takes
      the argument, and every other replacement field, or a lone brace, makes
      str.format raise. `used` says whether the argument is already taken. */
  function Format(template: string, arg: string, used: bool): (r: Result<string>)
    ensures r.Err? ==> r.error == FormatError
    decreases |template|
  {
    if template == [] then Ok([])
    else if template[0] == '{' then
      if |template| >= 2 && template[1] == '{' then Prepend("{", Format(template[2..], arg, used))
      else if |template| >= 2 && template[1] == '}' && !used then Prepend(arg, Format(template[2..], arg, true))
      else Err(FormatError)
    else if template[0] == '}' then
      if |template| >= 2 && template[1] == '}' then Prepend("}", Format(template[2..], arg, used))
      else Err(FormatError)
    else Prepend([template[0]], Format(template[1..], arg, used))
  }

  /** Text without braces formats to itself. */
  lemma {:induction false} FormatLiteral(t: string, arg: string, used: bool)
    requires NoBraces(t)
    ensures Format(t, arg, used) == Ok(t)
    decreases |t|
  {
    if t != [] {
      assert t[0] in t;
      assert NoBraces(t[1..]) by {
        forall k | 0 <= k < |t| - 1 ensures t[1..][k] == t[k + 1] {}
      }
      FormatLiteral(t[1..], arg, used);
      assert [t[0]] + t[1..] == t;
    }
  }

  /** A template that starts with a plain character formats to that
      character followed by the rest formatted. */
  lemma FormatPlainStep(t: string, arg: string, used: bool)
    requires t != [] && t[0] != '{' && t[0] != '}'
    ensures Format(t, arg, used) == Prepend([t[0]], Format(t[1..], arg, used))
  {
  }

  /** A template opening with `{}` before brace-free text formats to the
      argument followed by that text. */
  lemma FieldFirst(after: string, arg: string)
    requires NoBraces(after)
    ensures Format("{}" + after, arg, false) == Ok(arg + after)
  {
    var t := "{}" + after;
    assert t[0] == '{' && t[1] == '}' && t[2..] == after;
    FormatLiteral(after, arg, true);
  }

  /** A template with one `{}` between brace-free text formats to that text
      around the argument. */
  lemma {:induction false} FormatFillsTheField(before: string, after: string, arg: string)
    requires NoBraces(before) && NoBraces(after)
    ensures Format(before + "{}" + after, arg, false) == Ok(before + arg + after)
    decreases |before|
  {
    var t := before + "{}" + after;
    if before == [] {
      assert t == "{}" + after;
      FieldFirst(after, arg);
      assert before + arg + after == arg + after;
    } else {
      var c, rest := before[0], before[1..];
      assert before == [c] + rest;
      assert c in before;
      assert NoBraces(rest) by {
        assert forall x :: x in rest ==> x in before;
      }
      assert t == [c] + (rest + "{}" + after);
      FormatPlainStep(t, arg, false);
      assert t[1..] == rest + "{}" + after;
      FormatFillsTheField(rest, after, arg);
      assert [c] + (rest + arg + after) == before + arg + after;
    }
  }

  /** For brace-free names the template yields the intended backup path. */
  lemma TemplateGivesBackupPath(name: string, ext: string, suffix: string)
    requires NoBraces(name) && NoBraces(ext)
    ensures Format(name + "_{}." + ext, suffix, false) == Ok(BackupPath(name, ext, suffix))
  {
    assert NoBraces(name + "_") && NoBraces("." + ext);
    assert name + "_{}." + ext == (name + "_") + "{}" + ("." + ext);
    FormatFillsTheField(name + "_", "." + ext, suffix);
    assert (name + "_") + suffix + ("." + ext) == BackupPath(name, ext, suffix);
  }

  /** `make_backup(original, suffix_template, suffix)` as written. The suffix
      is `suffix`, or the clock's rendering of the template (strftime(None)
      raises TypeError). A collision builds `suffix + "_" + x` with an int x
      and raises TypeError; without one, `shutil` was never imported and
      the copy raises NameError. Nothing is ever copied. */
  function MakeBackupAsWritten(original: string, template: Option<string>, suffix: Option<string>,
                               clock: string -> string, files: map<string, seq<Record>>): (r: Result<(string, string)>)
    ensures r.Err?
    ensures suffix.None? && template.None? ==> r == Err(TypeError(StrftimeNoneMsg))
  {
    var s :- if suffix.Some? then Ok(suffix.value)
             else if template.None? then Err(TypeError(StrftimeNoneMsg))
             else Ok(clock(template.value));
    var (name, ext) := SplitName(original);
    var first :- Format(name + "_{}." + ext, s, false);
    if first in files then Err(TypeError(ConcatIntMsg)) else Err(NameError("shutil"))
  }

  /** As written, make_backup never returns a backup: a taken first name
      raises TypeError, a free one NameError. */
  lemma MakeBackupAsWrittenNeverCopies(original: string, template: string, suffix: Option<string>,
                                       clock: string -> string, files: map<string, seq<Record>>)
    requires NoBraces(SplitName(original).0) && NoBraces(SplitName(original).1)
    ensures var (name, ext) := SplitName(original);
            var first := Candidate(name, ext, suffix.GetOr(clock(template)), 0);
            MakeBackupAsWritten(original, Some(template), suffix, clock, files)
              == if first in files then Err(TypeError(ConcatIntMsg)) else Err(NameError("shutil"))
  {
    var (name, ext) := SplitName(original);
    TemplateGivesBackupPath(name, ext, suffix.GetOr(clock(template)));
  }

  /** As written, asking for the default template explicitly (None, which
      is what a session with `backup=True` passes) raises TypeError. */
  lemma NoTemplateAsWrittenRaises(original: string, clock: string -> string, files: map<string, seq<Record>>)
    ensures MakeBackupAsWritten(original, None, None, clock, files) == Err(TypeError(StrftimeNoneMsg))
  {
  }

  /** As written, a path whose name holds `{}` breaks the template:
      `a{}.csv` gives `a{}_{}.csv`, whose second field has no argument. */
  lemma BracedNameBreaksTemplate(clock: string -> string, files: map<string, seq<Record>>)
    ensures SplitName("a{}.csv") == ("a{}", "csv")
    ensures MakeBackupAsWritten("a{}.csv", Some(DefaultTemplate), None, clock, files) == Err(FormatError)
    ensures Candidate("a{}", "csv", clock(DefaultTemplate), 0) == "a{}_" + clock(DefaultTemplate) + ".csv"
  {
    DottedNameGetsSuffixBeforeExtension("a{}", "csv", clock(DefaultTemplate));
    assert "a{}" + "." + "csv" == "a{}.csv";
    assert "a{}" + "_{}." + "csv" == "a{}_{}.csv";
    SecondFieldIsRejected(clock(DefaultTemplate));
    RejectedTemplateRaises("a{}.csv", DefaultTemplate, clock, files);
  }

  /** As written, a template that str.format rejects is the error make_backup
      raises. */
  lemma RejectedTemplateRaises(original: string, template: string, clock: string -> string,
                               files: map<string, seq<Record>>)
    requires Format(SplitName(original).0 + "_{}." + SplitName(original).1, clock(template), false).Err?
    ensures MakeBackupAsWritten(original, Some(template), None, clock, files) == Err(FormatError)
  {
  }

  /** `a{}_{}.csv`: the first `{}` takes the argument, the second has none. */
  lemma SecondFieldIsRejected(s: string)
    ensures Format("a{}_{}.csv", s, false) == Err(FormatError)
  {
    assert Format("{}.csv", s, true) == Err(FormatError);
    assert "_{}.csv"[1..] == "{}.csv";
    assert Format("_{}.csv", s, true) == Err(FormatError);
    assert "{}_{}.csv"[2..] == "_{}.csv";
    assert Format("{}_{}.csv", s, false) == Err(FormatError);
    assert "a{}_{}.csv"[1..] == "{}_{}.csv";
    assert Format("a{}_{}.csv", s, false) == Err(FormatError);
  }

  // ---------------------------------------------------------------------
  // make_backup as intended

  /** `path` is the first candidate not in `files`: every earlier candidate
      is taken. */
  ghost predicate IsFirstFree(files: map<string, seq<Record>>, name: string, ext: string, suffix: string, path: string)
  {
    path !in files &&
    exists k: nat :: path == Candidate(name, ext, suffix, k) &&
                     forall j :: 0 <= j < k ==> Candidate(name, ext, suffix, j) in files
  }

  /** The collision loop of make_backup, with the number converted to text:
      try the plain name, then `_1`, `_2`, ... until one is free. It ends
      because the candidates are distinct and only finitely many paths exist. */
  method FreeBackupName(files: map<string, seq<Record>>, name: string, ext: string, suffix: string)
    returns (path: string)
    ensures IsFirstFree(files, name, ext, suffix, path)
  {
    var x := 1;
    path := BackupPath(name, ext, suffix);
    ghost var tried := 0;
    ghost var remaining := files.Keys;
    while path in files
      invariant x == tried + 1
      invariant path == Candidate(name, ext, suffix, tried)
      invariant forall j :: 0 <= j < tried ==> Candidate(name, ext, suffix, j) in files
      invariant forall k :: tried <= k && Candidate(name, ext, suffix, k) in files ==>
                  Candidate(name, ext, suffix, k) in remaining
      decreases |remaining|
    {
      forall k | tried < k && Candidate(name, ext, suffix, k) in files
        ensures Candidate(name, ext, suffix, k) in remaining - {path}
      {
        CandidatesDistinct(name, ext, suffix, k, tried);
      }
      remaining := remaining - {path};
      path := BackupPath(name, ext, suffix + "_" + DecimalString(x));
      tried := x;
      if path !in files {
        assert forall j :: 0 <= j < tried ==> Candidate(name, ext, suffix, j) in files;
        break;
      }
      x := x + 1;
    }
    assert path == Candidate(name, ext, suffix, tried);
  }

  /** `make_backup(original, suffix_template, suffix)` as intended: the
      suffix is `suffix` or the clock's rendering of the template, the backup
      is the first free candidate, and the original's records are copied
      there. A missing original raises and changes nothing. */
  method MakeBackup(store: FileStore, original: string, template: string, suffix: Option<string>,
                    clock: string -> string) returns (r: Result<(string, string)>)
    modifies store
    ensures original !in old(store.files) ==> r == Err(FileNotFound(original)) && store.files == old(store.files)
    ensures original in old(store.files) ==>
              var (name, ext) := SplitName(original);
              r.Ok? && r.value.0 == original &&
              IsFirstFree(old(store.files), name, ext, suffix.GetOr(clock(template)), r.value.1) &&
              store.files == old(store.files)[r.value.1 := old(store.files)[original]]
  {
    var s := if suffix.Some? then suffix.value else clock(template);
    var (name, ext) := SplitName(original);
    var backupFile := FreeBackupName(store.files, name, ext, s);
    if original !in store.files {
      r := Err(FileNotFound(original));
    } else {
      store.files := store.files[backupFile := store.files[original]];
      r := Ok((original, backupFile));
    }
  }

  /** When the plain name is free, it is the backup name. */
  lemma FirstCandidateWhenFree(files: map<string, seq<Record>>, name: string, ext: string, suffix: string, path: string)
    requires Candidate(name, ext, suffix, 0) !in files
    ensures IsFirstFree(files, name, ext, suffix, path) <==> path == Candidate(name, ext, suffix, 0)
  {
    var zero: nat := 0;
    assert path == Candidate(name, ext, suffix, zero) ==> IsFirstFree(files, name, ext, suffix, path);
  }

  /** There is only one first free candidate: the backup name is determined
      by the existing files, the name and the suffix. */
  lemma {:induction false} FirstFreeIsUnique(files: map<string, seq<Record>>, name: string, ext: string,
                                             suffix: string, p: string, q: string)
    requires IsFirstFree(files, name, ext, suffix, p) && IsFirstFree(files, name, ext, suffix, q)
    ensures p == q
  {
    var j: nat :| p == Candidate(name, ext, suffix, j) &&
                  forall i :: 0 <= i < j ==> Candidate(name, ext, suffix, i) in files;
    var k: nat :| q == Candidate(name, ext, suffix, k) &&
                  forall i :: 0 <= i < k ==> Candidate(name, ext, suffix, i) in files;
    assert j < k ==> Candidate(name, ext, suffix, j) in files;
    assert k < j ==> Candidate(name, ext, suffix, k) in files;
  }

  /** Backing up the same file twice with the same suffix gives two distinct
      paths, the second further along the candidates than the first. */
  lemma {:induction false} SecondBackupGetsLaterName(files: map<string, seq<Record>>, name: string, ext: string,
                                                     suffix: string, first: string, second: string,
                                                     contents: seq<Record>)
    requires IsFirstFree(files, name, ext, suffix, first)
    requires IsFirstFree(files[first := contents], name, ext, suffix, second)
    ensures second != first
    ensures exists j: nat, k: nat :: j < k && first == Candidate(name, ext, suffix, j) && second == Candidate(name, ext, suffix, k)
  {
    var j: nat :| first == Candidate(name, ext, suffix, j) &&
                  forall i :: 0 <= i < j ==> Candidate(name, ext, suffix, i) in files;
    var k: nat :| second == Candidate(name, ext, suffix, k) &&
                  forall i :: 0 <= i < k ==> Candidate(name, ext, suffix, i) in files[first := contents];
    assert k < j ==> Candidate(name, ext, suffix, k) in files;
    assert j < k;
  }
}
