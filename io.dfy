/**
 * The archive side of `src/io.rs`: picking the node-page resources out of
 * an SLPK archive's entry names, and the error type its readers return.
 * Opening the archive and inflating gzip are library calls and are not
 * part of this model.
 */
module Io {

  /** The substring that marks an archive entry as a node page. */
  const NodePagesMarker: string := "nodepages"

  /** `pat` occurs in `s` starting at position `i`. */
  ghost predicate OccursAt(s: string, pat: string, i: int) {
    0 <= i && i + |pat| <= |s| && s[i..i + |pat|] == pat
  }

  /** `str::contains`: `pat` occurs somewhere in `s` (the empty pattern occurs in every string). */
  function Contains(s: string, pat: string): (r: bool)
    decreases |s|
  {
    if |pat| > |s| then false
    else if s[..|pat|] == pat then true
    else Contains(s[1..], pat)
  }

  /** `Contains` is substring search: it holds exactly when `pat` occurs at some position of `s`. */
  lemma {:induction false} ContainsIsSubstring(s: string, pat: string)
    ensures Contains(s, pat) <==> exists i :: OccursAt(s, pat, i)
    decreases |s|
  {
    if |pat| > |s| {
      forall i ensures !OccursAt(s, pat, i) {}
    } else if s[..|pat|] == pat {
      assert OccursAt(s, pat, 0);
    } else {
      ContainsIsSubstring(s[1..], pat);
      if Contains(s[1..], pat) {
        var i :| OccursAt(s[1..], pat, i);
        assert s[1..][i..i + |pat|] == s[i + 1..i + 1 + |pat|];
        assert OccursAt(s, pat, i + 1);
      } else {
        forall i ensures !OccursAt(s, pat, i) {
          if i == 0 {
            assert s[0..0 + |pat|] == s[..|pat|];
          } else if i > 0 {
            assert OccursAt(s, pat, i) ==> s[1..][i - 1..i - 1 + |pat|] == s[i..i + |pat|];
            assert OccursAt(s, pat, i) ==> OccursAt(s[1..], pat, i - 1);
          }
        }
      }
    }
  }

  /**
   * `find_node_page_paths`: the archive's entry names that contain
   * `"nodepages"`, in listing order. Every returned name matches and every
   * matching name is returned.
   */
  function FindNodePagePaths(names: seq<string>): (paths: seq<string>)
    ensures forall p | p in paths :: Contains(p, NodePagesMarker)
    ensures forall n | n in names && Contains(n, NodePagesMarker) :: n in paths
    ensures |paths| <= |names|
    decreases |names|
  {
    if names == [] then []
    else (if Contains(names[0], NodePagesMarker) then [names[0]] else []) + FindNodePagePaths(names[1..])
  }

  /** `a` is `b` with some elements left out, the rest in their order. */
  predicate IsSubsequence<T(==)>(a: seq<T>, b: seq<T>)
    decreases |b|
  {
    if a == [] then true
    else if b == [] then false
    else if a[0] == b[0] then IsSubsequence(a[1..], b[1..])
    else IsSubsequence(a, b[1..])
  }

  /**
   * The node-page paths are a subsequence of the listing: nothing is
   * reordered or sorted, and each matching name keeps its multiplicity
   * while every other name is dropped.
   */
  lemma {:induction false} FindNodePagePathsKeepsOrder(names: seq<string>)
    ensures IsSubsequence(FindNodePagePaths(names), names)
    ensures forall n :: multiset(FindNodePagePaths(names))[n] ==
                        if Contains(n, NodePagesMarker) then multiset(names)[n] else 0
    decreases |names|
  {
    if names != [] {
      var rest := FindNodePagePaths(names[1..]);
      FindNodePagePathsKeepsOrder(names[1..]);
      assert names == [names[0]] + names[1..];
      if Contains(names[0], NodePagesMarker) {
        assert FindNodePagePaths(names) == [names[0]] + rest;
        assert FindNodePagePaths(names)[1..] == rest;
      } else {
        assert FindNodePagePaths(names) == rest;
      }
    }
  }

  /** Nothing is dropped exactly when every entry name is a node-page path. */
  lemma {:induction false} FindNodePagePathsKeepsAll(names: seq<string>)
    ensures |FindNodePagePaths(names)| == |names| <==>
            forall k | 0 <= k < |names| :: Contains(names[k], NodePagesMarker)
    decreases |names|
  {
    if names != [] {
      FindNodePagePathsKeepsAll(names[1..]);
      if Contains(names[0], NodePagesMarker) {
        assert forall k | 1 <= k < |names| :: names[k] == names[1..][k - 1];
      }
    }
  }

  // ---------------------------------------------------------------------------
  // ZipFileReadError
  // ---------------------------------------------------------------------------

  /** The library errors it wraps, known here only by their messages. */
  datatype IoError = IoError(message: string)
  datatype JsonError = JsonError(message: string)
  datatype ZipError = ZipError(message: string)

  datatype ZipFileReadError = IO(io: IoError) | Json(json: JsonError) | Zip(zip: ZipError)

  /** `From<ZipError>`. */
  function FromZipError(e: ZipError): (r: ZipFileReadError)
    ensures r.Zip? && r.zip == e
  {
    Zip(e)
  }

  /** `From<io::Error>`. */
  function FromIoError(e: IoError): (r: ZipFileReadError)
    ensures r.IO? && r.io == e
  {
    IO(e)
  }

  /** `From<serde_json::Error>`. */
  function FromJsonError(e: JsonError): (r: ZipFileReadError)
    ensures r.Json? && r.json == e
  {
    Json(e)
  }

  /** `Display`: the same fixed text whatever the variant; the cause is not shown. */
  function Display(e: ZipFileReadError): (s: string)
    ensures s == "ZipFileReadError: "
  {
    "ZipFileReadError: "
  }

  /**
   * The conversions lose nothing but the cause's text in `Display`: each is
   * one-to-one, their images are disjoint, and every error is the image of
   * exactly one library error, while all errors display alike.
   */
  lemma {:induction false} ConversionsAreFaithful(e: ZipFileReadError, f: ZipFileReadError,
                                                  z: ZipError, z': ZipError, i: IoError, i': IoError,
                                                  j: JsonError, j': JsonError)
    ensures FromZipError(z) == FromZipError(z') <==> z == z'
    ensures FromIoError(i) == FromIoError(i') <==> i == i'
    ensures FromJsonError(j) == FromJsonError(j') <==> j == j'
    ensures FromZipError(z) != FromIoError(i) && FromZipError(z) != FromJsonError(j) && FromIoError(i) != FromJsonError(j)
    ensures (e.Zip? && FromZipError(e.zip) == e) || (e.IO? && FromIoError(e.io) == e) || (e.Json? && FromJsonError(e.json) == e)
    ensures Display(e) == Display(f)
  {
  }
}
