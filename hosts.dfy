/** `src/hosts.rs`: the system hosts file as text, the redirect entry this program appends
    to it, and the removal of every line that carries the program's marker. */
module Hosts {
  import opened Wrappers
  import Seqs
  import Text

  /** Every line this program adds ends with this tag. */
  const Marker: string := "# ffxi-login-rs"

  /** The line `add_entry` appends: the entry, a space, the marker and a newline. */
  function EntryLine(entry: string): string
  {
    entry + " " + Marker + "\n"
  }

  predicate Marked(line: string)
  {
    Text.Contains(line, Marker)
  }

  /** Index of the first newline in `s`, or `|s|` when there is none. */
  function NewlineIndex(s: string): (k: nat)
    ensures k <= |s|
    ensures k < |s| ==> s[k] == '\n'
    ensures forall i :: 0 <= i < k ==> s[i] != '\n'
  {
    if s == [] then 0 else if s[0] == '\n' then 0 else 1 + NewlineIndex(s[1..])
  }

  /** Drops one carriage return at the end of a line. */
  function StripCR(line: string): string
  {
    if line != [] && line[|line| - 1] == '\r' then line[..|line| - 1] else line
  }

  /** Rust's `str::lines`: split after each newline; a line ended by a newline loses it
      and then one carriage return before it; a last line with no newline is kept as it
      is; there is no empty line after a final newline. */
  function Lines(s: string): seq<string>
    decreases |s|
  {
    if s == [] then []
    else
      var k := NewlineIndex(s);
      if k == |s| then [s] else [StripCR(s[..k])] + Lines(s[k + 1..])
  }

  /** `join("\n")`. */
  function Join(lines: seq<string>): string
  {
    if lines == [] then []
    else if |lines| == 1 then lines[0]
    else lines[0] + "\n" + Join(lines[1..])
  }

  /** The lines `remove_entries` keeps. */
  function KeptLines(s: string): seq<string>
  {
    Seqs.Filter((l: string) => !Marked(l), Lines(s))
  }

  /** What `remove_entries` writes back: the kept lines joined by newlines, plus a newline. */
  function RemoveMarked(s: string): string
  {
    Join(KeptLines(s)) + "\n"
  }

  predicate NoMarkedLines(s: string)
  {
    forall l :: l in Lines(s) ==> !Marked(l)
  }

  function StripAll(lines: seq<string>): seq<string>
  {
    if lines == [] then [] else [StripCR(lines[0])] + StripAll(lines[1..])
  }

  datatype HostsError = IoError

  /** How one access to the hosts file ends: it completes; it fails before anything is
      written (the open, the read or the `File::create` fails); or the write fails after
      `written` characters of what it meant to write. */
  datatype IoOutcome = IoOk | OpenFailed | WriteFailed(written: nat)

  /** How much of `len` characters a failed write leaves: fewer than all of them. */
  function PartialWrite(written: nat, len: nat): (n: nat)
    requires len > 0
    ensures n < len
  {
    if written < len then written else len - 1
  }

  /** The file after `add_entry`: opened in append mode and then written, the line is
      added whole, not at all, or cut short by a failed `write_all`. */
  function AfterAdd(before: string, entry: string, io: IoOutcome): (after: string)
    ensures io.IoOk? ==> after == before + EntryLine(entry)
    ensures io.OpenFailed? ==> after == before
    ensures io.WriteFailed? ==> |before| <= |after| < |before + EntryLine(entry)|
                                && after == (before + EntryLine(entry))[..|after|]
  {
    match io
    case IoOk => before + EntryLine(entry)
    case OpenFailed => before
    case WriteFailed(written) =>
      var line := EntryLine(entry);
      var after := before + line[..PartialWrite(written, |line|)];
      assert after == (before + line)[..|after|];
      after
  }

  /** The file after `remove_entries`: the read or the `File::create` fails and the file is
      as it was, or it is truncated and rewritten, completely or cut short. */
  function AfterRemove(before: string, io: IoOutcome): (after: string)
    ensures io.IoOk? ==> after == RemoveMarked(before)
    ensures io.OpenFailed? ==> after == before
    ensures io.WriteFailed? ==> |after| < |RemoveMarked(before)|
                                && after == RemoveMarked(before)[..|after|]
  {
    match io
    case IoOk => RemoveMarked(before)
    case OpenFailed => before
    case WriteFailed(written) =>
      var rewritten := RemoveMarked(before);
      rewritten[..PartialWrite(written, |rewritten|)]
  }

  /** The hosts file. How each access ends is the caller's `io` argument. */
  class HostsFile {
    var contents: string

    constructor (initial: string)
      ensures contents == initial
    {
      contents := initial;
    }

    /** `add_entry`: append the marker-tagged line; any failure is an error. */
    method AddEntry(entry: string, io: IoOutcome) returns (r: Result<(), HostsError>)
      modifies this
      ensures r.Ok? <==> io.IoOk?
      ensures contents == AfterAdd(old(contents), entry, io)
    {
      contents := AfterAdd(contents, entry, io);
      r := if io.IoOk? then Ok(()) else Err(IoError);
    }

    /** `remove_entries`: rewrite the file without its marked lines; any failure is an
        error. */
    method RemoveEntries(io: IoOutcome) returns (r: Result<(), HostsError>)
      modifies this
      ensures r.Ok? <==> io.IoOk?
      ensures contents == AfterRemove(old(contents), io)
    {
      contents := AfterRemove(contents, io);
      r := if io.IoOk? then Ok(()) else Err(IoError);
    }

    /** `cleanup_stale`: `remove_entries` with its error swallowed. */
    method CleanupStale(io: IoOutcome)
      modifies this
      ensures contents == AfterRemove(old(contents), io)
    {
      var _ := RemoveEntries(io);
    }
  }

  // ---- lines ----

  lemma {:induction false} NewlineIndexAt(x: string, y: string)
    requires forall i :: 0 <= i < |x| ==> x[i] != '\n'
    ensures NewlineIndex(x + "\n" + y) == |x|
  {
    if x != [] {
      assert (x + "\n" + y)[1..] == x[1..] + "\n" + y;
      NewlineIndexAt(x[1..], y);
    }
  }

  lemma {:induction false} NewlineIndexPrefix(p: string, x: string)
    requires NewlineIndex(p) < |p|
    ensures NewlineIndex(p + x) == NewlineIndex(p)
  {
    if p[0] != '\n' {
      assert (p + x)[1..] == p[1..] + x;
      NewlineIndexPrefix(p[1..], x);
    }
  }

  predicate NewlineFree(line: string)
  {
    forall i :: 0 <= i < |line| ==> line[i] != '\n'
  }

  lemma {:induction false} LinesNewlineFree(s: string)
    ensures forall l :: l in Lines(s) ==> NewlineFree(l)
    decreases |s|
  {
    if s != [] {
      var k := NewlineIndex(s);
      if k < |s| {
        var head := StripCR(s[..k]);
        LinesStep(s);
        LinesNewlineFree(s[k + 1..]);
        assert NewlineFree(head) by {
          forall i | 0 <= i < |head|
            ensures head[i] != '\n'
          {
            assert head[i] == s[i];
          }
        }
      } else {
        assert Lines(s) == [s];
      }
    }
  }

  lemma LinesHaveNoNewline(s: string)
    ensures forall l, i :: l in Lines(s) && 0 <= i < |l| ==> l[i] != '\n'
  {
    LinesNewlineFree(s);
  }

  /** Splitting text that ends with a newline, followed by more text, splits the two apart. */
  lemma {:induction false} LinesConcat(p: string, x: string)
    requires p == [] || p[|p| - 1] == '\n'
    ensures Lines(p + x) == Lines(p) + Lines(x)
    decreases |p|
  {
    if p == [] {
      assert p + x == x;
    } else {
      var k := NewlineIndex(p);
      assert k < |p|;
      NewlineIndexPrefix(p, x);
      assert (p + x)[..k] == p[..k];
      assert (p + x)[k + 1..] == p[k + 1..] + x;
      LinesConcat(p[k + 1..], x);
    }
  }

  /** Joining lines free of newlines, adding a final newline and splitting again gives the
      lines back, each without one trailing carriage return. */
  lemma {:induction false} LinesOfJoined(lines: seq<string>)
    requires lines != []
    requires forall j, i :: 0 <= j < |lines| && 0 <= i < |lines[j]| ==> lines[j][i] != '\n'
    ensures Lines(Join(lines) + "\n") == StripAll(lines)
  {
    var l0 := lines[0];
    if |lines| == 1 {
      NewlineIndexAt(l0, "");
      assert Join(lines) + "\n" == l0 + "\n" + "";
      assert (l0 + "\n")[..|l0|] == l0;
      assert (l0 + "\n")[|l0| + 1..] == [];
    } else {
      var rest := Join(lines[1..]) + "\n";
      assert Join(lines) + "\n" == l0 + "\n" + rest;
      NewlineIndexAt(l0, rest);
      assert (l0 + "\n" + rest)[..|l0|] == l0;
      assert (l0 + "\n" + rest)[|l0| + 1..] == rest;
      LinesOfJoined(lines[1..]);
    }
  }

  lemma {:induction false} StripAllUnchanged(lines: seq<string>)
    requires forall j :: 0 <= j < |lines| ==> lines[j] == [] || lines[j][|lines[j]| - 1] != '\r'
    ensures StripAll(lines) == lines
  {
    if lines != [] {
      StripAllUnchanged(lines[1..]);
    }
  }

  lemma PrefixUnmarked(l: string, n: nat)
    requires n <= |l|
    requires !Marked(l)
    ensures !Marked(l[..n])
  {
    if Marked(l[..n]) {
      var i :| 0 <= i <= n - |Marker| && Text.OccursAt(l[..n], Marker, i);
      assert l[i..i + |Marker|] == l[..n][i..i + |Marker|];
      assert Text.OccursAt(l, Marker, i);
    }
  }

  lemma {:induction false} StripAllUnmarked(lines: seq<string>)
    requires forall l :: l in lines ==> !Marked(l)
    ensures forall l :: l in StripAll(lines) ==> !Marked(l)
  {
    if lines != [] {
      var l0 := lines[0];
      if l0 != [] && l0[|l0| - 1] == '\r' {
        PrefixUnmarked(l0, |l0| - 1);
      }
      StripAllUnmarked(lines[1..]);
    }
  }

  lemma KeptLinesHaveNoNewline(s: string)
    ensures forall j, i :: 0 <= j < |KeptLines(s)| && 0 <= i < |KeptLines(s)[j]| ==> KeptLines(s)[j][i] != '\n'
  {
    LinesHaveNoNewline(s);
    forall j | 0 <= j < |KeptLines(s)| ensures KeptLines(s)[j] in Lines(s) {
      assert KeptLines(s)[j] in KeptLines(s);
    }
  }

  // ---- properties of remove_entries ----

  /** The lines of the rewritten file: the kept lines (each without one trailing carriage
      return), or one empty line when nothing was kept. */
  lemma RemoveMarkedLines(s: string)
    ensures Lines(RemoveMarked(s)) == if KeptLines(s) == [] then [""] else StripAll(KeptLines(s))
  {
    if KeptLines(s) == [] {
      NewlineIndexAt("", "");
      assert RemoveMarked(s) == "" + "\n" + "";
      assert RemoveMarked(s)[1..] == [];
    } else {
      KeptLinesHaveNoNewline(s);
      LinesOfJoined(KeptLines(s));
    }
  }

  /** `remove_entries` keeps every unmarked line, in its original order, and drops exactly
      the marked ones. */
  lemma RemoveKeepsUnmarkedLines(s: string)
    ensures Seqs.IsSubsequence(KeptLines(s), Lines(s))
    ensures forall l :: l in Lines(s) ==> (l in KeptLines(s) <==> !Marked(l))
    ensures forall l :: l in Lines(s) && !Marked(l) ==> multiset(KeptLines(s))[l] == multiset(Lines(s))[l]
  {
    Seqs.FilterIsSubsequence((l: string) => !Marked(l), Lines(s));
    Seqs.FilterCounts((l: string) => !Marked(l), Lines(s));
  }

  lemma EmptyUnmarked()
    ensures !Marked("")
  {
  }

  /** After `remove_entries` no line carries the marker and the file ends with a newline. */
  lemma RemoveMarkedIsClean(s: string)
    ensures NoMarkedLines(RemoveMarked(s))
    ensures RemoveMarked(s) != [] && RemoveMarked(s)[|RemoveMarked(s)| - 1] == '\n'
  {
    RemoveMarkedLines(s);
    EmptyUnmarked();
    StripAllUnmarked(KeptLines(s));
  }

  /** `remove_entries` twice is `remove_entries` once, when no kept line ends in a carriage
      return (see `RemoveNotIdempotentWithDoubleCR` for what happens otherwise). */
  lemma RemoveMarkedIdempotent(s: string)
    requires forall l :: l in KeptLines(s) ==> l == [] || l[|l| - 1] != '\r'
    ensures RemoveMarked(RemoveMarked(s)) == RemoveMarked(s)
  {
    var kept := KeptLines(s);
    var p := (l: string) => !Marked(l);
    RemoveMarkedLines(s);
    if kept == [] {
      EmptyUnmarked();
      assert Seqs.Filter(p, [""]) == [""];
    } else {
      StripAllUnchanged(kept);
      Seqs.FilterAll(p, kept);
    }
  }

  /** A line ending in two carriage returns loses one per pass, so two passes differ. */
  lemma RemoveNotIdempotentWithDoubleCR()
    ensures RemoveMarked("a\r\r\n") == "a\r\n"
    ensures RemoveMarked("a\r\n") == "a\n"
  {
    var once := "a\r";
    var twice := "a\r\r";
    SingleLine(twice);
    assert StripCR(twice) == once;
    assert twice + "\n" == "a\r\r\n";
    assert once + "\n" == "a\r\n";
    SingleLine(once);
    assert StripCR(once) == "a";
    assert "a" + "\n" == "a\n";
  }

  /** One unmarked line with its newline is kept, less one trailing carriage return. */
  lemma SingleLine(l: string)
    requires forall i :: 0 <= i < |l| ==> l[i] != '\n'
    requires |l| < |Marker|
    ensures RemoveMarked(l + "\n") == StripCR(l) + "\n"
  {
    var p := (x: string) => !Marked(x);
    LinesOfJoined([l]);
    assert Join([l]) == l;
    assert StripAll([l]) == [StripCR(l)];
    assert !Marked(StripCR(l));
    assert Seqs.Filter(p, [StripCR(l)]) == [StripCR(l)];
  }

  // ---- add_entry followed by remove_entries ----

  lemma LinesStep(s: string)
    requires NewlineIndex(s) < |s|
    ensures Lines(s) == [StripCR(s[..NewlineIndex(s)])] + Lines(s[NewlineIndex(s) + 1..])
  {
  }

  lemma JoinStep(l: string, lines: seq<string>)
    requires lines != []
    ensures Join([l] + lines) == l + "\n" + Join(lines)
  {
    assert ([l] + lines)[1..] == lines;
  }

  lemma {:induction false} JoinLines(s: string)
    requires s != [] && s[|s| - 1] == '\n'
    requires forall i :: 0 <= i < |s| ==> s[i] != '\r'
    ensures Join(Lines(s)) + "\n" == s
    decreases |s|
  {
    var k := NewlineIndex(s);
    var l0 := s[..k];
    var rest := s[k + 1..];
    assert s == l0 + "\n" + rest;
    assert StripCR(l0) == l0;
    LinesStep(s);
    if rest == [] {
      assert Join(Lines(s)) == l0;
    } else {
      JoinLines(rest);
      var j := Join(Lines(rest));
      JoinStep(l0, Lines(rest));
      assert Join(Lines(s)) == l0 + "\n" + j;
      RegroupLine(l0, j, s, rest);
    }
  }

  lemma RegroupLine(l0: string, j: string, s: string, rest: string)
    requires j + "\n" == rest
    requires s == l0 + "\n" + rest
    ensures l0 + "\n" + j + "\n" == s
  {
  }

  lemma MarkerFacts()
    ensures forall i :: 0 <= i < |Marker| ==> Marker[i] != '\n'
    ensures Marker[|Marker| - 1] == 's'
  {
  }

  lemma NoNewlineConcat(a: string, b: string)
    requires forall i :: 0 <= i < |a| ==> a[i] != '\n'
    requires forall i :: 0 <= i < |b| ==> b[i] != '\n'
    ensures forall i :: 0 <= i < |a + b| ==> (a + b)[i] != '\n'
  {
    forall i | 0 <= i < |a + b| ensures (a + b)[i] != '\n' {
      if i >= |a| {
        assert (a + b)[i] == b[i - |a|];
      }
    }
  }

  lemma MarkedLine(head: string)
    ensures Marked(head + Marker)
  {
    assert (head + Marker)[|head|..|head| + |Marker|] == Marker;
    assert Text.OccursAt(head + Marker, Marker, |head|);
  }

  /** A line with no newline and no trailing carriage return, followed by a newline,
      splits into just that line. */
  lemma OneLine(line: string)
    requires forall i :: 0 <= i < |line| ==> line[i] != '\n'
    requires line == [] || line[|line| - 1] != '\r'
    ensures Lines(line + "\n") == [line]
  {
    LinesOfJoined([line]);
    assert Join([line]) == line;
    assert StripAll([line]) == [StripCR(line)];
  }

  lemma EntryLineShape(prefix: string, entry: string)
    ensures prefix + EntryLine(entry) == prefix + entry + " " + Marker + "\n"
  {
  }

  /** The appended line has no newline and ends with the marker's last letter. */
  lemma EntryLineFree(prefix: string, entry: string)
    requires forall i :: 0 <= i < |prefix| ==> prefix[i] != '\n'
    requires forall i :: 0 <= i < |entry| ==> entry[i] != '\n'
    ensures forall i :: 0 <= i < |prefix + entry + " " + Marker| ==> (prefix + entry + " " + Marker)[i] != '\n'
    ensures (prefix + entry + " " + Marker)[|prefix + entry + " " + Marker| - 1] == 's'
  {
    var head := prefix + entry + " ";
    MarkerFacts();
    NoNewlineConcat(prefix, entry);
    NoNewlineConcat(prefix + entry, " ");
    NoNewlineConcat(head, Marker);
    assert (head + Marker)[|head + Marker| - 1] == Marker[|Marker| - 1];
  }

  lemma EntryLineLines(prefix: string, entry: string)
    requires forall i :: 0 <= i < |prefix| ==> prefix[i] != '\n'
    requires forall i :: 0 <= i < |entry| ==> entry[i] != '\n'
    ensures Lines(prefix + EntryLine(entry)) == [prefix + entry + " " + Marker]
    ensures Marked(prefix + entry + " " + Marker)
  {
    EntryLineShape(prefix, entry);
    EntryLineFree(prefix, entry);
    OneLine(prefix + entry + " " + Marker);
    MarkedLine(prefix + entry + " ");
  }

  lemma KeptLinesAfterAdd(p: string, tail: string, entry: string)
    requires p == [] || p[|p| - 1] == '\n'
    requires forall i :: 0 <= i < |tail| ==> tail[i] != '\n'
    requires forall i :: 0 <= i < |entry| ==> entry[i] != '\n'
    ensures KeptLines(p + (tail + EntryLine(entry))) == KeptLines(p)
  {
    var f := (l: string) => !Marked(l);
    LinesConcat(p, tail + EntryLine(entry));
    EntryLineLines(tail, entry);
    Seqs.FilterConcat(f, Lines(p), [tail + entry + " " + Marker]);
    assert Seqs.Filter(f, [tail + entry + " " + Marker]) == [];
  }

  /** Appending the entry to text that ends with a newline adds one line, a marked one. */
  lemma KeptLinesAfterAppend(s: string, entry: string)
    requires s == [] || s[|s| - 1] == '\n'
    requires forall i :: 0 <= i < |entry| ==> entry[i] != '\n'
    ensures KeptLines(s + EntryLine(entry)) == KeptLines(s)
  {
    KeptLinesAfterAdd(s, [], entry);
    assert [] + EntryLine(entry) == EntryLine(entry);
  }

  /** Round trip: on a file that ends with a newline, has no carriage return and no marked
      line, `add_entry` then `remove_entries` gives the file back. */
  lemma AddThenRemoveRestores(s: string, entry: string)
    requires s != [] && s[|s| - 1] == '\n'
    requires forall i :: 0 <= i < |s| ==> s[i] != '\r'
    requires NoMarkedLines(s)
    requires forall i :: 0 <= i < |entry| ==> entry[i] != '\n'
    ensures RemoveMarked(s + EntryLine(entry)) == s
  {
    KeptLinesAfterAppend(s, entry);
    KeptAllWhenUnmarked(s);
    RemoveKeepingAll(s + EntryLine(entry), s);
  }

  lemma RemoveKeepingAll(x: string, s: string)
    requires s != [] && s[|s| - 1] == '\n'
    requires forall i :: 0 <= i < |s| ==> s[i] != '\r'
    requires KeptLines(x) == Lines(s)
    ensures RemoveMarked(x) == s
  {
    JoinLines(s);
  }

  lemma KeptAllWhenUnmarked(s: string)
    requires NoMarkedLines(s)
    ensures KeptLines(s) == Lines(s)
  {
    Seqs.FilterAll((l: string) => !Marked(l), Lines(s));
  }

  /** When the file does not end with a newline, the entry is glued onto its last line
      `last`, and `remove_entries` then deletes that line with the entry: the result is
      what removing from the file without `last` gives. */
  lemma GluedLastLineLost(p: string, last: string, entry: string)
    requires p == [] || p[|p| - 1] == '\n'
    requires forall i :: 0 <= i < |last| ==> last[i] != '\n'
    requires forall i :: 0 <= i < |entry| ==> entry[i] != '\n'
    ensures RemoveMarked(p + last + EntryLine(entry)) == RemoveMarked(p)
  {
    KeptLinesAfterAdd(p, last, entry);
    assert p + last + EntryLine(entry) == p + (last + EntryLine(entry));
  }

  // ---- failed writes ----

  /** A marker inside a slice is a marker inside the whole text. */
  lemma SliceMarked(s: string, a: nat, b: nat)
    requires a <= b <= |s|
    requires Marked(s[a..b])
    ensures Marked(s)
  {
    var t := s[a..b];
    var i :| 0 <= i <= |t| - |Marker| && Text.OccursAt(t, Marker, i);
    assert forall j :: 0 <= j < |t| ==> t[j] == s[a + j];
    assert t[i..i + |Marker|] == s[a + i..a + i + |Marker|];
    assert Text.OccursAt(s, Marker, a + i);
  }

  /** A text that contains no marker has no marked line. */
  lemma {:induction false} UnmarkedTextHasUnmarkedLines(s: string)
    requires !Marked(s)
    ensures NoMarkedLines(s)
    decreases |s|
  {
    if s != [] {
      var k := NewlineIndex(s);
      if k < |s| {
        var head := StripCR(s[..k]);
        assert head == s[0..|head|];
        if Marked(head) {
          SliceMarked(s, 0, |head|);
        }
        if Marked(s[k + 1..]) {
          assert s[k + 1..] == s[k + 1..|s|];
          SliceMarked(s, k + 1, |s|);
        }
        UnmarkedTextHasUnmarkedLines(s[k + 1..]);
        assert Lines(s) == [head] + Lines(s[k + 1..]);
      }
    }
  }

  /** Two texts without the marker, joined by a newline, have none: the marker holds no
      newline, so it cannot straddle one. */
  lemma UnmarkedAcrossNewline(a: string, b: string)
    requires !Marked(a) && !Marked(b)
    ensures !Marked(a + "\n" + b)
  {
    var t := a + "\n" + b;
    forall i | 0 <= i <= |t| - |Marker|
      ensures !Text.OccursAt(t, Marker, i)
    {
      if i + |Marker| <= |a| {
        assert t[i..i + |Marker|] == a[i..i + |Marker|];
        assert !Text.OccursAt(a, Marker, i);
      } else if i <= |a| {
        MarkerFacts();
        assert t[|a|] == '\n';
        assert t[i..i + |Marker|][|a| - i] == t[|a|];
        assert Marker[|a| - i] != '\n';
      } else {
        assert t[i..i + |Marker|] == b[i - |a| - 1..i - |a| - 1 + |Marker|];
        assert !Text.OccursAt(b, Marker, i - |a| - 1);
      }
    }
  }

  /** Unmarked lines joined by newlines, plus a final newline, hold no marker. */
  lemma {:induction false} JoinedUnmarked(lines: seq<string>)
    requires forall l :: l in lines ==> !Marked(l)
    ensures !Marked(Join(lines) + "\n")
  {
    if lines == [] {
      assert !Marked("\n");
    } else if |lines| == 1 {
      UnmarkedAcrossNewline(lines[0], "");
      assert Join(lines) + "\n" == lines[0] + "\n" + "";
    } else {
      assert lines[0] in lines;
      assert forall l :: l in lines[1..] ==> l in lines;
      JoinedUnmarked(lines[1..]);
      UnmarkedAcrossNewline(lines[0], Join(lines[1..]) + "\n");
      assert Join(lines) + "\n" == lines[0] + "\n" + (Join(lines[1..]) + "\n");
    }
  }

  /** Once `remove_entries` has truncated the file, no line of it carries the marker, even
      when the write then fails partway: every prefix of the rewritten text is free of
      the marker. */
  lemma TruncatedRewriteUnmarked(s: string, io: IoOutcome)
    requires !io.OpenFailed?
    ensures NoMarkedLines(AfterRemove(s, io))
  {
    JoinedUnmarked(KeptLines(s));
    var after := AfterRemove(s, io);
    PrefixUnmarked(RemoveMarked(s), |after|);
    assert after == RemoveMarked(s)[..|after|];
    UnmarkedTextHasUnmarkedLines(after);
  }
}
