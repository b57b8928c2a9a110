/**
 * The slice of the Java standard library that the image controller relies on:
 * `String.lastIndexOf`, `String.substring`, `String.split` with a one-character
 * separator, and `Path.getFileName` for '/'-separated paths, together with the
 * exceptions they throw.
 */
module JavaLang {

  /** The exceptions the modelled code can raise. */
  datatype Exception =
    | NullPointer             // a method called on a null reference
    | ArrayIndexOutOfBounds   // indexing an empty array
    | StringIndexOutOfBounds  // `substring` with a start outside the string
    | UserNotFound            // `orElseThrow` on an empty user lookup
    | StorageFailure          // the blob store could not write the file
    | PersistenceFailure      // the image repository could not save the record

  /** A value, or the exception that was thrown instead of returning it. */
  datatype Result<T> = Ok(value: T) | Thrown(error: Exception)

  /** `s.lastIndexOf(c)`: the index of the last `c` in `s`, or -1 when there is none. */
  function LastIndexOf(s: string, c: char): (r: int)
    ensures -1 <= r < |s|
    ensures r == -1 <==> c !in s
    ensures 0 <= r ==> s[r] == c
    ensures forall j :: r < j < |s| ==> s[j] != c
    decreases |s|
  {
    if s == [] then -1
    else if s[|s| - 1] == c then |s| - 1
    else LastIndexOf(s[..|s| - 1], c)
  }

  /** `s.substring(begin)`: the tail of `s` from `begin`, which must lie within `0..|s|`. */
  function Substring(s: string, begin: int): (r: Result<string>)
    ensures r.Ok? <==> 0 <= begin <= |s|
    ensures r.Ok? ==> s == s[..begin] + r.value
    ensures r.Thrown? ==> r.error == StringIndexOutOfBounds
  {
    if 0 <= begin <= |s| then Ok(s[begin..]) else Thrown(StringIndexOutOfBounds)
  }

  /** The parts put back together with `sep` between consecutive ones. */
  function Join(parts: seq<string>, sep: char): string
    requires |parts| >= 1
    decreases |parts|
  {
    if |parts| == 1 then parts[0] else parts[0] + [sep] + Join(parts[1..], sep)
  }

  /**
   * Every piece of `s` between occurrences of `sep`, empty pieces included:
   * the pieces contain no separator and joining them gives `s` back.
   */
  function Segments(s: string, sep: char): (r: seq<string>)
    ensures |r| >= 1
    ensures forall i :: 0 <= i < |r| ==> sep !in r[i]
    ensures Join(r, sep) == s
    decreases |s|
  {
    if s == [] then [[]]
    else
      var rest := Segments(s[1..], sep);
      if s[0] == sep then
        assert ([[]] + rest)[1..] == rest;
        [[]] + rest
      else
        var r := [[s[0]] + rest[0]] + rest[1..];
        assert r[1..] == rest[1..];
        assert Join(r, sep) == [s[0]] + Join(rest, sep);
        r
  }

  /** `parts` without the empty strings at its end, as `String.split` returns it. */
  function DropTrailingEmpty(parts: seq<string>): (r: seq<string>)
    ensures r <= parts
    ensures r == [] || r[|r| - 1] != []
    ensures forall i :: |r| <= i < |parts| ==> parts[i] == []
    decreases |parts|
  {
    if parts == [] then []
    else if parts[|parts| - 1] == [] then DropTrailingEmpty(parts[..|parts| - 1])
    else parts
  }

  /**
   * `s.split(sep)` for a separator that is not a regular-expression
   * metacharacter: `[s]` when `sep` does not occur, otherwise the segments
   * with the trailing empty ones removed. The result is empty exactly when
   * `s` is a non-empty run of separators, and otherwise starts with the text
   * before the first separator: all of `s`, or a prefix followed by `sep`.
   */
  function Split(s: string, sep: char): (r: seq<string>)
    ensures r == [] <==> s != [] && forall i :: 0 <= i < |s| ==> s[i] == sep
    ensures r != [] ==>
      && sep !in r[0]
      && (r[0] == s || (|r[0]| < |s| && s[..|r[0]| + 1] == r[0] + [sep]))
  {
    SegmentsAllEmpty(s, sep);
    JoinStartsWithHead(Segments(s, sep), sep);
    if sep !in s then
      SegmentsWithoutSeparator(s, sep);
      [s]
    else
      DropTrailingEmpty(Segments(s, sep))
  }

  /** Without a separator in `s` there is one segment, `s` itself. */
  lemma SegmentsWithoutSeparator(s: string, sep: char)
    requires sep !in s
    ensures Segments(s, sep) == [s]
  {
  }

  /**
   * A join starts with its first part, followed by the separator when there
   * are more parts.
   */
  lemma JoinStartsWithHead(parts: seq<string>, sep: char)
    requires |parts| >= 1
    ensures |parts| == 1 ==> Join(parts, sep) == parts[0]
    ensures |parts| > 1 ==>
      (|Join(parts, sep)| > |parts[0]| && Join(parts, sep)[..|parts[0]| + 1] == parts[0] + [sep])
  {
  }

  /** All segments are empty exactly when `s` consists of separators only. */
  lemma {:induction false} SegmentsAllEmpty(s: string, sep: char)
    ensures (forall i :: 0 <= i < |Segments(s, sep)| ==> Segments(s, sep)[i] == [])
        <==> (forall j :: 0 <= j < |s| ==> s[j] == sep)
    decreases |s|
  {
    if s != [] {
      SegmentsAllEmpty(s[1..], sep);
      var parts, rest := Segments(s, sep), Segments(s[1..], sep);
      if s[0] == sep {
        assert parts == [[]] + rest;
        if forall i :: 0 <= i < |parts| ==> parts[i] == [] {
          assert forall i :: 0 <= i < |rest| ==> rest[i] == parts[i + 1];
          forall j | 0 <= j < |s|
            ensures s[j] == sep
          {
            if j > 0 {
              assert s[j] == s[1..][j - 1];
            }
          }
        }
        if forall j :: 0 <= j < |s| ==> s[j] == sep {
          assert forall j :: 0 <= j < |s[1..]| ==> s[1..][j] == s[j + 1];
          forall i | 0 <= i < |parts|
            ensures parts[i] == []
          {
            if i > 0 {
              assert parts[i] == rest[i - 1];
            }
          }
        }
      } else {
        assert parts[0] != [];
      }
    }
  }

  /**
   * `p.getFileName().toString()` for a path written with '/' separators: the
   * longest suffix of `p` that holds no '/'. A root path (made of separators
   * only) has no name elements, so `getFileName()` is null and the
   * `toString()` throws.
   */
  function FileName(p: string): (r: Result<string>)
    ensures r.Thrown? <==> IsRoot(p)
    ensures r.Thrown? ==> r.error == NullPointer
    ensures r.Ok? ==>
      && '/' !in r.value
      && |r.value| <= |p| && p == p[..|p| - |r.value|] + r.value
      && (|r.value| < |p| ==> p[|p| - |r.value| - 1] == '/')
  {
    if IsRoot(p) then Thrown(NullPointer)
    else Ok(p[LastIndexOf(p, '/') + 1..])
  }

  /** The path is a root: non-empty and made of '/' only. */
  predicate IsRoot(p: string)
  {
    p != [] && forall i :: 0 <= i < |p| ==> p[i] == '/'
  }
}
