/**
 * Parsing of a `.tox-index` file (`IndexContent.__init__` in tox_core.py).
 * The file's text is taken as input instead of being read from disk.
 */
module IndexFile {
  import opened Wrappers
  import opened Strings

  /** A first non-empty line starting with this marks the index as protected. */
  const ProtectMarker: string := "#protect"

  /** What the parser yields: the protect flag and the directory entries in file order. */
  datatype Parsed = Parsed(protect: bool, entries: seq<string>)

  /** The only failure: no non-empty line, so `all[0]` raises IndexError. */
  datatype LoadError = NoLines

  /** `text.split('\n')`: the lines of the text, which joined with newlines give the text back. */
  function Lines(text: string): (lines: seq<string>)
    ensures |lines| >= 1 && Join(lines, '\n') == text
  {
    JoinSplit(text, '\n');
    Split(text, '\n')
  }

  /** `[l for l in lines if len(l) > 0]`. */
  function NonEmptyLines(lines: seq<string>): (r: seq<string>)
    ensures |r| <= |lines|
    ensures forall k :: 0 <= k < |r| ==> r[k] != "" && r[k] in lines
  {
    if lines == [] then []
    else if |lines[0]| > 0 then [lines[0]] + NonEmptyLines(lines[1..])
    else NonEmptyLines(lines[1..])
  }

  /** `a` is `b` with some elements removed, the rest kept in order. */
  ghost predicate IsSubsequence<T>(a: seq<T>, b: seq<T>)
  {
    if a == [] then true
    else if b == [] then false
    else (a[0] == b[0] && IsSubsequence(a[1..], b[1..])) || IsSubsequence(a, b[1..])
  }

  /**
   * The filter drops exactly the empty lines: what it keeps is a subsequence of
   * the lines, in their order, and every non-empty line is kept as often as it occurs.
   */
  lemma {:induction false} NonEmptyLinesFilters(lines: seq<string>)
    ensures IsSubsequence(NonEmptyLines(lines), lines)
    ensures multiset(NonEmptyLines(lines)) == multiset(lines)["" := 0]
  {
    if lines != [] {
      var rest := lines[1..];
      NonEmptyLinesFilters(rest);
      assert lines == [lines[0]] + rest;
      assert multiset(lines) == multiset([lines[0]]) + multiset(rest);
      var r := NonEmptyLines(lines);
      if |lines[0]| > 0 {
        assert r[1..] == NonEmptyLines(rest);
      }
    }
  }

  /** Filtering one more line at the end appends it when it is non-empty. */
  lemma {:induction false} NonEmptyLinesSnoc(lines: seq<string>, l: string)
    ensures NonEmptyLines(lines + [l]) == NonEmptyLines(lines) + (if |l| > 0 then [l] else [])
  {
    if lines != [] {
      assert (lines + [l])[1..] == lines[1..] + [l];
      NonEmptyLinesSnoc(lines[1..], l);
    }
  }

  /** The list comprehension that drops empty lines in `IndexContent.__init__` (tox_core.py), as the loop it runs. */
  method KeepNonEmpty(lines: seq<string>) returns (all: seq<string>)
    ensures all == NonEmptyLines(lines)
  {
    all := [];
    for i := 0 to |lines|
      invariant all == NonEmptyLines(lines[..i])
    {
      NonEmptyLinesSnoc(lines[..i], lines[i]);
      assert lines[..i + 1] == lines[..i] + [lines[i]];
      if |lines[i]| > 0 {
        all := all + [lines[i]];
      }
    }
    assert lines[..|lines|] == lines;
  }

  /** What `IndexContent(path)` computes from the file's text, or the error it raises. */
  function ParseIndex(text: string): (r: Result<Parsed, LoadError>)
    ensures r.Failure? <==> forall j :: 0 <= j < |text| ==> text[j] == '\n'
    ensures r.Success? ==> forall k :: 0 <= k < |r.value.entries| ==>
                             r.value.entries[k] != "" && '\n' !in r.value.entries[k]
  {
    NoLinesIffBlank(text);
    KeptLinesAreWhole(text);
    var all := NonEmptyLines(Lines(text));
    if |all| == 0 then Failure(NoLines)
    else if StartsWith(all[0], ProtectMarker) then Success(Parsed(true, all[1..]))
    else Success(Parsed(false, all))
  }

  /** A text has no non-empty line exactly when it is nothing but newlines. */
  lemma {:induction false} NoLinesIffBlank(text: string)
    ensures NonEmptyLines(Lines(text)) == [] <==> forall j :: 0 <= j < |text| ==> text[j] == '\n'
    decreases |text|
  {
    if '\n' in text {
      SplitAtFirst(text, '\n');
      IndexOfIsFirst(text, '\n');
      var i := IndexOf(text, '\n');
      var t := text[i + 1..];
      NoLinesIffBlank(t);
      var parts := Lines(text);
      assert parts[0] == text[..i];
      assert parts[1..] == Lines(t);
      if i == 0 {
        assert forall j :: 1 <= j < |text| ==> text[j] == t[j - 1];
      } else {
        assert text[..i][0] == text[0];
      }
    } else {
      SplitNoSeparator(text, '\n');
      assert forall j :: 0 <= j < |text| ==> text[j] != '\n';
    }
  }

  /** Every kept line is non-empty and holds no newline. */
  lemma KeptLinesAreWhole(text: string)
    ensures var all := NonEmptyLines(Lines(text));
            forall k :: 0 <= k < |all| ==> all[k] != "" && '\n' !in all[k]
  {
    var lines := Lines(text);
    var all := NonEmptyLines(lines);
    SplitPiecesLackSeparator(text, '\n');
    forall k | 0 <= k < |all|
      ensures '\n' !in all[k]
    {
      var j :| 0 <= j < |lines| && lines[j] == all[k];
    }
  }

  lemma {:induction false} SubsequenceTail<T>(a: seq<T>, b: seq<T>)
    requires a != [] && IsSubsequence(a, b)
    ensures IsSubsequence(a[1..], b)
  {
    if a[1..] != [] {
      assert b != [];
      if a[0] == b[0] && IsSubsequence(a[1..], b[1..]) {
        assert IsSubsequence(a[1..], b);
      } else {
        SubsequenceTail(a, b[1..]);
      }
    }
  }

  /**
   * Parsing fails exactly on a text of newlines only. Otherwise the first
   * non-empty line decides `protect` by a prefix test against the marker; a
   * protecting line is not an entry, and the entries are all the other
   * non-empty lines, each a whole line, in the order of the file.
   */
  lemma ParseIndexMeaning(text: string)
    ensures ParseIndex(text).Failure? <==> forall j :: 0 <= j < |text| ==> text[j] == '\n'
    ensures ParseIndex(text).Success? ==>
              var p := ParseIndex(text).value;
              var all := NonEmptyLines(Lines(text));
              && (p.protect <==> StartsWith(all[0], ProtectMarker))
              && (p.protect ==> [all[0]] + p.entries == all)
              && (!p.protect ==> p.entries == all)
              && IsSubsequence(p.entries, Lines(text))
              && forall k :: 0 <= k < |p.entries| ==> p.entries[k] != "" && '\n' !in p.entries[k]
  {
    var lines := Lines(text);
    var all := NonEmptyLines(lines);
    NonEmptyLinesFilters(lines);
    if all != [] {
      var p := ParseIndex(text).value;
      SubsequenceTail(all, lines);
      if StartsWith(all[0], ProtectMarker) {
        assert p == Parsed(true, all[1..]);
        assert [all[0]] + all[1..] == all;
      } else {
        assert p == Parsed(false, all);
      }
    }
  }

  /**
   * The protect marker is a prefix test: a first line such as `#protectX`
   * protects the index, and it is not an entry.
   */
  lemma ProtectIsPrefixTest(first: string, entry: string)
    requires StartsWith(first, ProtectMarker) && '\n' !in first
    requires entry != "" && '\n' !in entry
    ensures ParseIndex(first + "\n\n" + entry) == Success(Parsed(true, [entry]))
  {
    var lines := [first, "", entry];
    SplitJoin(lines, '\n');
    assert lines[1..] == ["", entry] && lines[2..] == [entry];
    JoinCons("", [entry], '\n');
    JoinCons(first, ["", entry], '\n');
    assert Join(lines, '\n') == first + "\n\n" + entry;
    assert NonEmptyLines(lines[2..]) == [entry];
    assert NonEmptyLines(lines) == [first, entry];
  }

  /** The lines of a text made of an empty line, an entry and the marker. */
  lemma LateMarkerLines(entry: string)
    requires '\n' !in entry
    ensures Lines("\n" + entry + "\n" + ProtectMarker) == ["", entry, ProtectMarker]
  {
    var lines := ["", entry, ProtectMarker];
    var tail := [entry, ProtectMarker];
    assert '\n' !in ProtectMarker;
    assert forall k :: 0 <= k < |lines| ==> '\n' !in lines[k];
    SplitJoin(lines, '\n');
    JoinCons(entry, [ProtectMarker], '\n');
    assert Join(tail, '\n') == entry + "\n" + ProtectMarker;
    assert lines == [""] + tail;
    JoinCons("", tail, '\n');
    assert Join(lines, '\n') == "\n" + entry + "\n" + ProtectMarker;
  }

  /** Only the first non-empty line can carry the marker; a later one is an entry. */
  lemma LateMarkerIsEntry(entry: string)
    requires entry != "" && '\n' !in entry && !StartsWith(entry, ProtectMarker)
    ensures ParseIndex("\n" + entry + "\n" + ProtectMarker) == Success(Parsed(false, [entry, ProtectMarker]))
  {
    var lines := ["", entry, ProtectMarker];
    LateMarkerLines(entry);
    assert lines[1..] == [entry, ProtectMarker] && lines[2..] == [ProtectMarker];
    assert NonEmptyLines(lines[2..]) == [ProtectMarker];
    assert NonEmptyLines(lines[1..]) == [entry, ProtectMarker];
    var all := NonEmptyLines(lines);
    assert all == [entry, ProtectMarker];
    assert !StartsWith(all[0], ProtectMarker);
  }

  /** The directory list the Python object is, with the two fields `__init__` sets. */
  class IndexContent {
    var path: string
    var protect: bool
    var items: seq<string>

    /** Every entry is one whole, non-empty line of the file: what `Open` produces. */
    ghost predicate EntriesAreLines()
      reads this
    {
      forall k :: 0 <= k < |items| ==> items[k] != "" && '\n' !in items[k]
    }

    /** The start of `IndexContent.__init__` (tox_core.py): an empty list with `path` set and `protect` false. */
    constructor (path: string)
      ensures this.path == path && !protect && items == []
    {
      this.path := path;
      protect := false;
      items := [];
    }

    /** `list.extend`. */
    method Extend(xs: seq<string>)
      modifies this
      ensures items == old(items) + xs
      ensures path == old(path) && protect == old(protect)
    {
      items := items + xs;
    }
  }

  /**
   * `IndexContent(path)` where the file at `path` holds `text`: the object on
   * success, the IndexError of `all[0]` when no line is non-empty.
   */
  method Open(path: string, text: string) returns (r: Result<IndexContent, LoadError>)
    ensures r.Failure? <==> ParseIndex(text).Failure?
    ensures r.Failure? ==> r.error == NoLines
    ensures r.Success? ==> fresh(r.value) && r.value.EntriesAreLines() && r.value.path == path
    ensures r.Success? ==> ParseIndex(text) == Success(Parsed(r.value.protect, r.value.items))
  {
    var ic := new IndexContent(path);
    var all := KeepNonEmpty(Lines(text));
    KeptLinesAreWhole(text);
    if |all| == 0 {
      return Failure(NoLines);
    }
    if StartsWith(all[0], ProtectMarker) {
      ic.protect := true;
      ic.Extend(all[1..]);
      assert ic.items == all[1..];
      assert ParseIndex(text) == Success(Parsed(true, all[1..]));
    } else {
      ic.Extend(all);
      assert ic.items == all;
      assert ParseIndex(text) == Success(Parsed(false, all));
    }
    r := Success(ic);
  }
}
