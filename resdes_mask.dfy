/**
 * Field-mask paths (mask.go): snake_case segments are turned into
 * camelCase so that a declared path such as "user.first_name" can be
 * compared with the wire spelling "user.firstName", and a mask is the set
 * of its normalised entries, nil when the mask has no entries.
 */
module ResdesMask {
  import opened Wrappers
  import GoStrings

  /**
   * The normalised form of `s`, where `upper` says whether the character
   * before `s` was an underscore: underscores are dropped and the first
   * character after a run of them is upper-cased.
   */
  function NormalizeFrom(s: string, upper: bool): string
  {
    if s == [] then ""
    else if s[0] == '_' then NormalizeFrom(s[1..], true)
    else [if upper then GoStrings.ToUpper(s[0]) else s[0]] + NormalizeFrom(s[1..], false)
  }

  /** The normalised form of a whole path. */
  function Normalize(path: string): string
  {
    NormalizeFrom(path, false)
  }

  /** `NormalizePath`: one pass over the characters with a pending upper-case flag. */
  method NormalizePath(path: string) returns (r: string)
    ensures r == Normalize(path)
  {
    var out := "";
    var toUpper := false;
    var i := 0;
    while i < |path|
      invariant 0 <= i <= |path|
      invariant out + NormalizeFrom(path[i..], toUpper) == Normalize(path)
    {
      var c := path[i];
      assert path[i..] == [c] + path[i + 1..];
      if c == '_' {
        toUpper := true;
      } else if toUpper {
        out := out + [GoStrings.ToUpper(c)];
        toUpper := false;
      } else {
        out := out + [c];
      }
      i := i + 1;
    }
    r := out;
  }

  /** A normalised path never contains an underscore. */
  lemma {:induction false} NormalizeDropsUnderscores(s: string, upper: bool)
    ensures '_' !in NormalizeFrom(s, upper)
  {
    if s != [] {
      NormalizeDropsUnderscores(s[1..], s[0] == '_');
      NormalizeDropsUnderscores(s[1..], false);
    }
  }

  /** A path with no underscore is its own normal form. */
  lemma {:induction false} NormalizeKeepsPlainPath(s: string)
    requires '_' !in s
    ensures Normalize(s) == s
  {
    if s != [] {
      assert '_' !in s[1..];
      NormalizeKeepsPlainPath(s[1..]);
      assert [s[0]] + s[1..] == s;
    }
  }

  /** The normal form is shorter than the path by exactly its number of underscores. */
  lemma {:induction false} NormalizeLength(s: string, upper: bool)
    ensures |NormalizeFrom(s, upper)| == |s| - GoStrings.Count(s, '_')
  {
    if s != [] {
      NormalizeLength(s[1..], s[0] == '_');
      NormalizeLength(s[1..], false);
    }
  }

  /**
   * Where each surviving character lands: the character at index `i` of `s`
   * (not an underscore) moves left by the number of underscores before it,
   * and is upper-cased exactly when an underscore directly precedes it (or,
   * at the very start, when `upper` is pending).
   */
  lemma {:induction false} NormalizeAt(s: string, upper: bool, i: nat)
    requires i < |s| && s[i] != '_'
    ensures GoStrings.Count(s[..i], '_') <= i
    ensures i - GoStrings.Count(s[..i], '_') < |NormalizeFrom(s, upper)|
    ensures NormalizeFrom(s, upper)[i - GoStrings.Count(s[..i], '_')]
         == if (i == 0 && upper) || (i > 0 && s[i - 1] == '_') then GoStrings.ToUpper(s[i]) else s[i]
  {
    if i > 0 {
      var tail := s[1..];
      assert s[..i][1..] == tail[..i - 1];
      assert GoStrings.Count(s[..i], '_')
          == (if s[0] == '_' then 1 else 0) + GoStrings.Count(tail[..i - 1], '_');
      assert tail[i - 1] == s[i];
      if s[0] == '_' {
        NormalizeAt(tail, true, i - 1);
      } else {
        NormalizeAt(tail, false, i - 1);
      }
    }
  }

  /** Normalising twice is normalising once. */
  lemma NormalizeIdempotent(p: string)
    ensures Normalize(Normalize(p)) == Normalize(p)
  {
    NormalizeDropsUnderscores(p, false);
    NormalizeKeepsPlainPath(Normalize(p));
  }

  /** The mask set that `GetPathsFromMask` builds: nil without entries, else the normalised entries. */
  function MaskPaths(fieldMask: seq<string>): (r: Option<set<string>>)
    ensures r == None <==> |fieldMask| == 0
    ensures r.Some? ==> forall p :: p in r.value <==> exists f :: f in fieldMask && Normalize(f) == p
  {
    if |fieldMask| == 0 then None
    else Some(set f | f in fieldMask :: Normalize(f))
  }

  /** `GetPathsFromMask`: fills the set entry by entry. */
  method GetPathsFromMask(fieldMask: seq<string>) returns (paths: Option<set<string>>)
    ensures paths == MaskPaths(fieldMask)
  {
    if |fieldMask| == 0 {
      return None;
    }
    var acc: set<string> := {};
    var i := 0;
    while i < |fieldMask|
      invariant 0 <= i <= |fieldMask|
      invariant acc == set f | f in fieldMask[..i] :: Normalize(f)
    {
      var n := NormalizePath(fieldMask[i]);
      assert fieldMask[..i + 1] == fieldMask[..i] + [fieldMask[i]];
      acc := acc + {n};
      i := i + 1;
    }
    assert fieldMask[..i] == fieldMask;
    paths := Some(acc);
  }

  /** `IsPathInMask`: a nil set contains nothing; otherwise set membership. */
  function IsPathInMask(path: string, paths: Option<set<string>>): (r: bool)
    ensures paths == None ==> !r
    ensures paths.Some? ==> (r <==> path in paths.value)
  {
    match paths
    case None => false
    case Some(s) => path in s
  }

  /**
   * A declared path is in the mask exactly when some mask entry has the same
   * normal form; with no mask entries, nothing is.
   */
  lemma MaskMembership(path: string, fieldMask: seq<string>)
    ensures IsPathInMask(Normalize(path), MaskPaths(fieldMask))
        <==> exists f :: f in fieldMask && Normalize(f) == Normalize(path)
  {
  }
}
