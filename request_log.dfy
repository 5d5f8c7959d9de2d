/**
 * Request counting over the access log (scaler.py:27-45): the number of lines
 * whose bracketed timestamp is later than `now - interval`.
 *
 * The log is a sequence of lines, or `None` when the file does not exist. The
 * clock reading `now` and every timestamp are whole seconds. Parsing the
 * `%d/%b/%Y:%H:%M:%S` timestamp is delegated to `parse`, which stands for
 * Python's `datetime.strptime` and answers `None` wherever that raises.
 */
module RequestLog {
  import opened Wrappers
  import opened Text

  /**
   * The timestamp text the source cuts out of a line: everything before the
   * first `]`, minus its first character (the `[` when the line starts with
   * one), cut again before the first ` +` (the time-zone offset).
   */
  function Token(line: string): (t: string)
    ensures line == [] ==> t == []
    ensures line != [] ==> |t| < |line| && t == line[1..1 + |t|]
    ensures ']' !in t
    ensures forall i: nat :: i < |t| ==> !OccursAt(t, " +", i)
  {
    var before := BeforeChar(line, ']');
    var cut := DropFirst(before);
    var t := BeforeSeparator(cut, " +");
    assert t == cut[..|t|];
    assert before != [] ==> cut == before[1..] && before == line[..|before|];
    OccursAtPrefix(cut, t, " +");
    t
  }

  /**
   * A line is counted when it contains `[` and its token parses to a time
   * after `cutoff`: a line without `[`, with a token the parser rejects, or
   * with a time at or before the cutoff is skipped.
   */
  predicate Counted(line: string, cutoff: int, parse: string -> Option<int>): (b: bool)
    ensures '[' !in line ==> !b
    ensures parse(Token(line)).None? ==> !b
    ensures parse(Token(line)).Some? && parse(Token(line)).value <= cutoff ==> !b
  {
    '[' in line &&
    match parse(Token(line))
    case Some(ts) => ts > cutoff
    case None => false
  }

  /** The number of lines `keep` accepts, built up line by line. */
  function CountWhere(lines: seq<string>, keep: string -> bool): (n: nat)
    ensures n <= |lines|
  {
    if lines == [] then 0
    else CountWhere(lines[..|lines| - 1], keep) + (if keep(lines[|lines| - 1]) then 1 else 0)
  }

  /** The reference count of counted lines, built up line by line as the loop does. */
  function CountRecent(lines: seq<string>, cutoff: int, parse: string -> Option<int>): (n: nat)
    ensures n <= |lines|
  {
    CountWhere(lines, line => Counted(line, cutoff, parse))
  }

  /**
   * `count_requests_last_interval`: walks the lines once, adding one for each
   * counted line; a missing log file yields 0.
   */
  method CountRequestsLastInterval(log: Option<seq<string>>, now: int, interval: int,
                                   parse: string -> Option<int>) returns (count: nat)
    ensures log.None? ==> count == 0
    ensures log.Some? ==> count == CountRecent(log.value, now - interval, parse)
  {
    if log.None? {
      return 0;
    }
    var lines := log.value;
    var cutoff := now - interval;
    count := 0;
    for i := 0 to |lines|
      invariant count == CountRecent(lines[..i], cutoff, parse)
    {
      ghost var before := count;
      if '[' in lines[i] {
        match parse(Token(lines[i])) {
          case Some(ts) =>
            if ts > cutoff {
              count := count + 1;
            }
          case None =>
        }
      }
      assert count == before + (if Counted(lines[i], cutoff, parse) then 1 else 0);
      assert lines[..i + 1] == lines[..i] + [lines[i]];
      CountRecentSnoc(lines[..i], lines[i], cutoff, parse);
    }
    assert lines[..|lines|] == lines;
  }

  /** Appending a line adds one to the count exactly when that line is counted. */
  lemma CountRecentSnoc(lines: seq<string>, line: string, cutoff: int, parse: string -> Option<int>)
    ensures CountRecent(lines + [line], cutoff, parse) ==
            CountRecent(lines, cutoff, parse) + (if Counted(line, cutoff, parse) then 1 else 0)
  {
    assert (lines + [line])[..|lines|] == lines;
  }

  lemma {:induction false} CountWhereConcat(a: seq<string>, b: seq<string>, keep: string -> bool)
    ensures CountWhere(a + b, keep) == CountWhere(a, keep) + CountWhere(b, keep)
    decreases |b|
  {
    if b == [] {
      assert a + b == a;
    } else {
      var b' := b[..|b| - 1];
      assert (a + b)[..|a + b| - 1] == a + b';
      CountWhereConcat(a, b', keep);
    }
  }

  lemma {:induction false} CountWhereZeroIff(lines: seq<string>, keep: string -> bool)
    ensures CountWhere(lines, keep) == 0 <==> forall i :: 0 <= i < |lines| ==> !keep(lines[i])
  {
    if lines != [] {
      var init := lines[..|lines| - 1];
      CountWhereZeroIff(init, keep);
      assert forall i :: 0 <= i < |init| ==> init[i] == lines[i];
    }
  }

  lemma {:induction false} CountWhereAllIff(lines: seq<string>, keep: string -> bool)
    ensures CountWhere(lines, keep) == |lines| <==> forall i :: 0 <= i < |lines| ==> keep(lines[i])
  {
    if lines != [] {
      var init := lines[..|lines| - 1];
      CountWhereAllIff(init, keep);
      assert forall i :: 0 <= i < |init| ==> init[i] == lines[i];
    }
  }

  /** Counting distributes over splitting the log anywhere. */
  lemma CountConcat(a: seq<string>, b: seq<string>, cutoff: int, parse: string -> Option<int>)
    ensures CountRecent(a + b, cutoff, parse) == CountRecent(a, cutoff, parse) + CountRecent(b, cutoff, parse)
  {
    CountWhereConcat(a, b, line => Counted(line, cutoff, parse));
  }

  /**
   * A line that is not counted (no `[`, an unparsable token, or a time at or
   * before the cutoff) leaves the count unchanged wherever it stands.
   */
  lemma SkippedLineIgnored(a: seq<string>, line: string, b: seq<string>, cutoff: int,
                           parse: string -> Option<int>)
    requires !Counted(line, cutoff, parse)
    ensures CountRecent(a + [line] + b, cutoff, parse) == CountRecent(a + b, cutoff, parse)
  {
    var keep := l => Counted(l, cutoff, parse);
    CountWhereConcat(a + [line], b, keep);
    CountWhereConcat(a, [line], keep);
    CountWhereConcat(a, b, keep);
    assert CountWhere([line], keep) == 0 by {
      assert [line][..0] == [];
    }
  }

  /** The count is zero exactly when no line is counted. */
  lemma CountZeroIff(lines: seq<string>, cutoff: int, parse: string -> Option<int>)
    ensures CountRecent(lines, cutoff, parse) == 0 <==>
            forall i :: 0 <= i < |lines| ==> !Counted(lines[i], cutoff, parse)
  {
    CountWhereZeroIff(lines, line => Counted(line, cutoff, parse));
  }

  /** The count equals the number of lines exactly when every line is counted. */
  lemma CountAllIff(lines: seq<string>, cutoff: int, parse: string -> Option<int>)
    ensures CountRecent(lines, cutoff, parse) == |lines| <==>
            forall i :: 0 <= i < |lines| ==> Counted(lines[i], cutoff, parse)
  {
    CountWhereAllIff(lines, line => Counted(line, cutoff, parse));
  }

  /**
   * For a line of the expected shape `[<stamp> +<zone>]<rest>`, the token is
   * exactly `<stamp>`, so such a line is counted exactly when `<stamp>` parses
   * to a time after the cutoff.
   */
  lemma WellFormedLineToken(stamp: string, zone: string, rest: string, cutoff: int,
                            parse: string -> Option<int>)
    requires ']' !in stamp && ']' !in zone
    requires forall i: nat :: i < |stamp| ==> !OccursAt(stamp, " +", i)
    ensures Token("[" + stamp + " +" + zone + "]" + rest) == stamp
    ensures Counted("[" + stamp + " +" + zone + "]" + rest, cutoff, parse) <==>
            parse(stamp).Some? && parse(stamp).value > cutoff
  {
    var line := "[" + stamp + " +" + zone + "]" + rest;
    var inner := "[" + stamp + " +" + zone;
    assert line == inner + "]" + rest;
    BeforeCharStopsAt(inner, ']', rest);
    assert DropFirst(inner) == stamp + " +" + zone;
    SeparatorCutsAt(stamp, zone);
    assert line[0] == '[';
  }

  /** The text before ` +` in `<stamp> +<zone>` is `<stamp>` when `<stamp>` holds no ` +`. */
  lemma SeparatorCutsAt(stamp: string, zone: string)
    requires forall i: nat :: i < |stamp| ==> !OccursAt(stamp, " +", i)
    ensures BeforeSeparator(stamp + " +" + zone, " +") == stamp
  {
    var t := stamp + " +" + zone;
    forall i: nat | i < |stamp| ensures !OccursAt(t, " +", i) {
      if i + 2 <= |stamp| {
        assert t[i..i + 2] == stamp[i..i + 2];
        assert !OccursAt(stamp, " +", i);
      } else {
        assert t[i + 1] == ' ' && t[i..i + 2][1] == t[i + 1];
      }
    }
    assert OccursAt(t, " +", |stamp|) by {
      assert t[|stamp|..|stamp| + 2] == " +";
    }
    var r := BeforeSeparator(t, " +");
    assert |r| == |stamp|;
    assert r == t[..|stamp|] == stamp;
  }

  lemma BeforeCharStopsAt(s: string, c: char, rest: string)
    requires c !in s
    ensures BeforeChar(s + [c] + rest, c) == s
  {
    var line := s + [c] + rest;
    var r := BeforeChar(line, c);
    assert line[|s|] == c;
    assert forall i :: 0 <= i < |s| ==> line[i] == s[i];
  }

  /**
   * The extraction assumes the line starts with `[`. If some text `p` (an
   * address, say) comes first, the token keeps the `[` and all of `p` but its
   * first character; with any parser that rejects a `[` -- as the
   * `%d/%b/%Y:%H:%M:%S` format does -- such a line is never counted.
   */
  lemma PrefixedLineNeverCounted(p: string, stamp: string, zone: string, rest: string,
                                 cutoff: int, parse: string -> Option<int>)
    requires p != [] && ']' !in p && ']' !in stamp && ']' !in zone
    requires forall i: nat :: i < |p| ==> !OccursAt(p, " +", i)
    requires forall s :: '[' in s ==> parse(s).None?
    ensures !Counted(p + "[" + stamp + " +" + zone + "]" + rest, cutoff, parse)
  {
    var inner := p + "[" + stamp + " +" + zone;
    assert p + "[" + stamp + " +" + zone + "]" + rest == inner + "]" + rest;
    BeforeCharStopsAt(inner, ']', rest);
    var t := p[1..] + "[" + stamp + " +" + zone;
    assert DropFirst(inner) == t;
    forall j: nat | j < |p| ensures !OccursAt(t, " +", j) {
      if j + 1 == |p| {
        assert t[j] == '[';
      } else if j + 2 == |p| {
        assert t[j + 1] == '[';
      } else {
        assert t[j..j + 2] == p[j + 1..j + 3];
        assert !OccursAt(p, " +", j + 1);
      }
    }
    var r := BeforeSeparator(t, " +");
    assert |r| >= |p|;
    assert r[|p| - 1] == t[|p| - 1] == '[';
  }
}
