/**
 * Faults by level and their text rendering (fault.go).
 *
 * `ToError` sorts the caller's faults in place by level, then writes one
 * section per run of faults whose level names agree: a header naming the
 * level, one line per fault, and "]\n" to close it.  The level names come
 * from `FaultType.String`, which is defined outside fault.go, so rendering
 * takes the naming as a parameter.
 */
module SoldrFault {
  import opened GoStrings
  import GoErrors

  /** `FaultType`, a `uint32`. */
  newtype FaultType = x: int | 0 <= x < 0x1_0000_0000

  const NA: FaultType := 1
  const FieldLevel: FaultType := 2
  const RequestLevel: FaultType := 4
  const CustomLevel: FaultType := 8
  const ConfigLevel: FaultType := 16

  /** A fault: its level, the field it concerns (if any) and its error. */
  datatype Fault = Fault(typ: FaultType, field: string, err: GoErrors.Err)

  /** `ConfigFault`. */
  function ConfigFault(err: GoErrors.Err): (f: Fault)
    ensures f.typ == ConfigLevel && f.field == "" && f.err == err
  {
    Fault(ConfigLevel, "", err)
  }

  /** `FieldFault`: the only constructor that names a field. */
  function FieldFault(field: string, err: GoErrors.Err): (f: Fault)
    ensures f.typ == FieldLevel && f.field == field && f.err == err
  {
    Fault(FieldLevel, field, err)
  }

  /** `CustomFault`. */
  function CustomFault(err: GoErrors.Err): (f: Fault)
    ensures f.typ == CustomLevel && f.field == "" && f.err == err
  {
    Fault(CustomLevel, "", err)
  }

  /** `RequestFault`. */
  function RequestFault(err: GoErrors.Err): (f: Fault)
    ensures f.typ == RequestLevel && f.field == "" && f.err == err
  {
    Fault(RequestLevel, "", err)
  }

  /** Whether `n` is a power of two. */
  predicate PowerOfTwo(n: int)
    decreases n
  {
    n == 1 || (n > 1 && n % 2 == 0 && PowerOfTwo(n / 2))
  }

  /** The levels are the distinct powers of two 1, 2, 4, 8 and 16, so they can be combined as bits. */
  lemma LevelsArePowersOfTwo()
    ensures PowerOfTwo(NA as int) && PowerOfTwo(FieldLevel as int) && PowerOfTwo(RequestLevel as int)
    ensures PowerOfTwo(CustomLevel as int) && PowerOfTwo(ConfigLevel as int)
    ensures NA < FieldLevel < RequestLevel < CustomLevel < ConfigLevel
  {
    assert PowerOfTwo(1);
    assert PowerOfTwo(2);
    assert PowerOfTwo(4);
    assert PowerOfTwo(8);
  }

  /** Non-decreasing level, the order `ByType.Less` sorts by. */
  ghost predicate SortedByType(s: seq<Fault>)
  {
    forall k, l :: 0 <= k < l < |s| ==> s[k].typ <= s[l].typ
  }

  /** `ByType.Swap(j - 1, j)`. */
  method SwapAdjacent(a: array<Fault>, j: nat)
    requires 0 < j < a.Length
    modifies a
    ensures a[..] == old(a[..])[j - 1 := old(a[j])][j := old(a[j - 1])]
    ensures multiset(a[..]) == multiset(old(a[..]))
  {
    a[j - 1], a[j] := a[j], a[j - 1];
  }

  /** Moves `a[i]` left past every larger level, so that `a[..i + 1]` becomes sorted. */
  method InsertAt(a: array<Fault>, i: nat)
    requires i < a.Length && SortedByType(a[..i])
    modifies a
    ensures SortedByType(a[..i + 1])
    ensures multiset(a[..]) == multiset(old(a[..]))
  {
    var j := i;
    while j > 0 && a[j - 1].typ > a[j].typ
      invariant 0 <= j <= i
      invariant multiset(a[..]) == multiset(old(a[..]))
      invariant forall k, l :: 0 <= k < l <= i && k != j && l != j ==> a[k].typ <= a[l].typ
      invariant forall l :: j < l <= i ==> a[j].typ < a[l].typ
    {
      SwapAdjacent(a, j);
      j := j - 1;
    }
  }

  /**
   * `sort.Sort(ByType(faults))`: the faults rearranged by `ByType.Swap` into
   * non-decreasing level.  The order among faults of one level is not
   * fixed by the source (the sort is not stable); any order is allowed here.
   */
  method SortByType(a: array<Fault>)
    modifies a
    ensures SortedByType(a[..])
    ensures multiset(a[..]) == multiset(old(a[..]))
  {
    if a.Length <= 1 {
      return;
    }
    for i := 1 to a.Length
      invariant SortedByType(a[..i])
      invariant multiset(a[..]) == multiset(old(a[..]))
    {
      InsertAt(a, i);
    }
    assert a[..a.Length] == a[..];
  }

  /** A section header: the level's name in lower case, then ".issues: [". */
  function Header(t: FaultType, typeName: FaultType -> string): string
  {
    ToLower(typeName(t)) + ".issues: [\n"
  }

  /** One fault's line, ending in a literal backslash-n and a newline; request-level lines name no field. */
  function Line(f: Fault): string
  {
    if f.typ == RequestLevel then GoErrors.Text(f.err) + "\\n\n"
    else f.field + ": " + GoErrors.Text(f.err) + "\\n\n"
  }

  /** The section name written last after writing `fs`: that of the last fault, or "" before any. */
  function SectionAfter(fs: seq<Fault>, typeName: FaultType -> string): string
  {
    if fs == [] then "" else typeName(fs[|fs| - 1].typ)
  }

  /** The buffer after the writing loop has gone through `fs`, tracking the last section name written. */
  function Written(fs: seq<Fault>, typeName: FaultType -> string): string
  {
    if fs == [] then ""
    else
      var init := fs[..|fs| - 1];
      var f := fs[|fs| - 1];
      var section := SectionAfter(init, typeName);
      Written(init, typeName)
        + (if section == "" || section != typeName(f.typ)
           then (if section != "" then "]\n" else "") + Header(f.typ, typeName)
           else "")
        + Line(f)
  }

  /** Fault `i` opens a section: it is the first fault or its level differs from the one before. */
  predicate OpensSection(fs: seq<Fault>, i: nat)
    requires i < |fs|
  {
    i == 0 || fs[i - 1].typ != fs[i].typ
  }

  /**
   * The intended layout, by level: each fault that opens a section is
   * preceded by its level's header (and, after the first, by the "]\n"
   * closing the section before).
   */
  function Sections(fs: seq<Fault>, typeName: FaultType -> string): string
  {
    if fs == [] then ""
    else
      var i := |fs| - 1;
      Sections(fs[..i], typeName)
        + (if OpensSection(fs, i) then (if i > 0 then "]\n" else "") + Header(fs[i].typ, typeName) else "")
        + Line(fs[i])
  }

  /**
   * When level names are non-empty and tell levels apart, tracking the last
   * section's name lays the faults out exactly in level sections.
   */
  lemma {:induction false} WrittenIsSections(fs: seq<Fault>, typeName: FaultType -> string)
    requires forall t: FaultType :: typeName(t) != ""
    requires forall t: FaultType, u: FaultType :: typeName(t) == typeName(u) ==> t == u
    ensures Written(fs, typeName) == Sections(fs, typeName)
  {
    if fs != [] {
      var i := |fs| - 1;
      WrittenIsSections(fs[..i], typeName);
      if i > 0 {
        assert fs[..i][i - 1] == fs[i - 1];
      }
    }
  }

  /** In sorted faults, two faults that open sections have different levels: each level has one section. */
  lemma OneSectionPerLevel(fs: seq<Fault>, i: nat, j: nat)
    requires SortedByType(fs)
    requires i < j < |fs| && OpensSection(fs, i) && OpensSection(fs, j)
    ensures fs[i].typ < fs[j].typ
  {
    assert fs[i].typ <= fs[j - 1].typ;
  }

  /**
   * `ToError`: nil for no faults; otherwise the faults are sorted by level
   * in place and the error's text is the sections written for them, with the
   * last section closed.
   */
  method ToError(faults: array<Fault>, typeName: FaultType -> string) returns (e: GoErrors.Err)
    requires forall i :: 0 <= i < faults.Length ==> faults[i].err != []
    modifies faults
    ensures faults.Length == 0 ==> e == []
    ensures faults.Length > 0 ==> e == [Written(faults[..], typeName) + "]\n"]
    ensures SortedByType(faults[..]) && multiset(faults[..]) == multiset(old(faults[..]))
  {
    if faults.Length == 0 {
      return [];
    }
    SortByType(faults);
    var buffer := WriteSections(faults[..], typeName);
    e := GoErrors.New(buffer + "]\n");
  }

  /** One more fault written: the text its step adds and the section it leaves open. */
  lemma WrittenStep(fs: seq<Fault>, i: nat, typeName: FaultType -> string)
    requires i < |fs|
    ensures var section := SectionAfter(fs[..i], typeName);
      Written(fs[..i + 1], typeName) == Written(fs[..i], typeName)
        + (if section == "" || section != typeName(fs[i].typ)
           then (if section != "" then "]\n" else "") + Header(fs[i].typ, typeName)
           else "")
        + Line(fs[i])
    ensures SectionAfter(fs[..i + 1], typeName) == typeName(fs[i].typ)
  {
    assert fs[..i + 1][..i] == fs[..i];
  }

  /** The writing loop of `ToError` over the sorted faults, before the last section is closed. */
  method WriteSections(fs: seq<Fault>, typeName: FaultType -> string) returns (buffer: string)
    ensures buffer == Written(fs, typeName)
  {
    buffer := "";
    var sectionWritten := "";
    for i := 0 to |fs|
      invariant buffer == Written(fs[..i], typeName)
      invariant sectionWritten == SectionAfter(fs[..i], typeName)
    {
      WrittenStep(fs, i, typeName);
      var v := fs[i];
      var opening := "";
      if sectionWritten == "" || sectionWritten != typeName(v.typ) {
        if sectionWritten != "" {
          opening := "]\n";
        }
        opening := opening + Header(v.typ, typeName);
        sectionWritten := typeName(v.typ);
      }
      buffer := buffer + opening + Line(v);
    }
    assert fs[..|fs|] == fs;
  }

  /**
   * `parseFieldNameFromPath`: the parent path and the field's name.  With a
   * dot, the name is the part after the last dot and the parent the part
   * before it; without one, the parent is "" and the name the whole path.
   */
  function ParseFieldNameFromPath(path: string): (r: (string, string))
    ensures '.' !in path ==> r == ("", path)
    ensures '.' in path ==> r.0 + "." + r.1 == path && '.' !in r.1
  {
    var sp := Split(path, '.');
    JoinSplit(path, '.');
    SplitPiecesLackSeparator(path, '.');
    if |sp| > 1 then
      JoinSnoc(sp, '.');
      (Join(sp[..|sp| - 1], '.'), sp[|sp| - 1])
    else
      ("", sp[0])
  }
}
