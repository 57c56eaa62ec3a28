/** `handle_duplicate_filenames` of ctxflow/utils.py: picks "name (i).ext"
    with the least i >= 1 that is not taken. The filesystem is the finite
    set of paths that exist. */
module DuplicateNames {
  import opened Wrappers
  import opened Text

  /** A path, as its parent directory and its last component (`.name`). */
  datatype FilePath = FilePath(parent: string, name: string)

  /** `PurePath.suffix`: from the last dot, unless that dot is the first or
      the last character of the name. */
  function Suffix(name: string): string
  {
    var i := RFind(name, '.');
    if 0 < i < |name| - 1 then name[i..] else ""
  }

  /** `PurePath.stem`: the name without its suffix. */
  function Stem(name: string): string
  {
    var i := RFind(name, '.');
    if 0 < i < |name| - 1 then name[..i] else name
  }

  /** `file_path.with_stem(f"{file_path.stem} ({i})")`. */
  function Candidate(p: FilePath, i: nat): FilePath
  {
    FilePath(p.parent, Stem(p.name) + " (" + Decimal(i) + ")" + Suffix(p.name))
  }

  /** `i` is the least index >= 1 whose candidate path does not exist. */
  ghost predicate FirstFree(p: FilePath, existing: set<FilePath>, i: nat)
  {
    && i >= 1
    && Candidate(p, i) !in existing
    && forall j :: 1 <= j < i ==> Candidate(p, j) in existing
  }

  /** The length of the longest name among `s`. */
  ghost function MaxNameLen(s: set<FilePath>): (m: nat)
    ensures forall x :: x in s ==> |x.name| <= m
    decreases |s|
  {
    if s == {} then 0
    else
      var x :| x in s;
      var m := MaxNameLen(s - {x});
      if |x.name| > m then |x.name| else m
  }

  /** `handle_duplicate_filenames(file_path)`. A missing path is returned
      as it is. For an existing one, the loop tries i = 1, 2, ... and
      returns the first candidate that does not exist; `with_stem` raises
      `ValueError` when the path has an empty name. */
  method HandleDuplicateFilenames(p: FilePath, existing: set<FilePath>) returns (r: Result<FilePath>)
    ensures p !in existing ==> r == Ok(p)
    ensures p in existing && p.name == "" ==> r.Err?
    ensures p in existing && p.name != "" ==>
      r.Ok? && r.value !in existing && r.value.parent == p.parent
      && exists i :: FirstFree(p, existing, i) && r.value == Candidate(p, i)
  {
    if p !in existing {
      return Ok(p);
    }
    if p.name == "" {
      return Err("has an empty name");
    }
    ghost var bound := Pow10(MaxNameLen(existing));
    var i: nat := 1;
    while true
      invariant 1 <= i <= bound
      invariant forall j :: 1 <= j < i ==> Candidate(p, j) in existing
      decreases bound - i
    {
      var candidate := Candidate(p, i);
      if candidate !in existing {
        assert FirstFree(p, existing, i);
        return Ok(candidate);
      }
      if i >= bound {
        DecimalLength(i, MaxNameLen(existing));
        assert false;
      }
      i := i + 1;
    }
  }

  /** A name is its stem followed by its suffix. */
  lemma StemSuffix(name: string)
    ensures Stem(name) + Suffix(name) == name
  {
    var i := RFind(name, '.');
    if 0 < i < |name| - 1 {
      assert name[..i] + name[i..] == name;
    }
  }

  /** The index of the last dot of `a + b` when `b` starts with the only dot
      it contains. */
  lemma RFindAtSuffix(a: string, b: string)
    requires |b| >= 1 && b[0] == '.'
    requires forall j :: 0 < j < |b| ==> b[j] != '.'
    ensures RFind(a + b, '.') == |a|
  {
    var s := a + b;
    var r := RFind(s, '.');
    assert s[|a|] == '.';
  }

  /** A candidate keeps the suffix of the original name, and its stem is the
      original stem followed by " (i)". */
  lemma CandidateKeepsSuffix(p: FilePath, i: nat)
    requires Suffix(p.name) != ""
    ensures Suffix(Candidate(p, i).name) == Suffix(p.name)
    ensures Stem(Candidate(p, i).name) == Stem(p.name) + " (" + Decimal(i) + ")"
  {
    var k := RFind(p.name, '.');
    var suf := p.name[k..];
    var stem := Stem(p.name) + " (" + Decimal(i) + ")";
    assert suf == Suffix(p.name) && |suf| >= 2;
    forall j | 0 < j < |suf|
      ensures suf[j] != '.'
    {
      assert suf[j] == p.name[k + j];
    }
    RFindAtSuffix(stem, suf);
    assert Candidate(p, i).name == stem + suf;
    assert (stem + suf)[|stem|..] == suf && (stem + suf)[..|stem|] == stem;
  }
}
