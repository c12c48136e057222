/** The bounded in-memory log. */
module RuntimeLogs {
  import opened Prelude
  import opened Texts
  import opened Utf8

  const NEWLINE: Byte := 10

  type Lines = seq<seq<Byte>>

  /** What lines cost: their bytes and one line end each. */
  function Cost(lines: Lines): nat {
    if lines == [] then 0 else |lines[0]| + 1 + Cost(lines[1..])
  }

  lemma {:induction false} CostAppend(lines: Lines, line: seq<Byte>)
    ensures Cost(lines + [line]) == Cost(lines) + |line| + 1
  {
    if lines != [] {
      CostAppend(lines[1..], line);
      assert (lines + [line])[1..] == lines[1..] + [line];
    }
  }

  lemma {:induction false} JoinSize(lines: Lines, sep: Byte)
    requires lines != []
    ensures |Join(lines, sep)| + 1 == Cost(lines)
  {
    if |lines| > 1 {
      JoinSize(lines[1..], sep);
    } else {
      assert lines[1..] == [];
    }
  }

  predicate Fits(lines: Lines, maxLines: int, maxBytes: int) {
    |lines| <= Max(maxLines, 0) && Cost(lines) <= Max(maxBytes, 0)
  }

  ghost predicate IsSuffix(part: Lines, whole: Lines) {
    |part| <= |whole| && part == whole[|whole| - |part|..]
  }

  /** The longest end of the whole that fits. */
  ghost predicate LongestFitting(part: Lines, whole: Lines, maxLines: int, maxBytes: int) {
    && IsSuffix(part, whole) && Fits(part, maxLines, maxBytes)
    && forall k :: 0 <= k < |whole| - |part| ==> !Fits(whole[k..], maxLines, maxBytes)
  }

  /** There is only one such end. */
  lemma LongestIsUnique(a: Lines, b: Lines, whole: Lines, maxLines: int, maxBytes: int)
    requires LongestFitting(a, whole, maxLines, maxBytes) && LongestFitting(b, whole, maxLines, maxBytes)
    ensures a == b
  {
    assert a == whole[|whole| - |a|..] && b == whole[|whole| - |b|..];
  }

  /** Lines as the log takes them: too long ones are cut. */
  function CutLine(line: seq<Byte>, maxBytes: int): seq<Byte> {
    if |line| + 1 > maxBytes then Truncated(line, maxBytes - 1) else line
  }

  /** A line that fits stays whole; any other is cut to its longest valid beginning that
      fits, and valid text loses at most three bytes more than it must. */
  lemma CutLineIsLongest(line: seq<Byte>, maxBytes: int)
    requires maxBytes >= 2
    ensures var r := CutLine(line, maxBytes);
      && r <= line && |r| + 1 <= maxBytes
      && (|line| + 1 <= maxBytes ==> r == line)
      && (|line| + 1 > maxBytes ==>
            ValidUtf8(r) && forall k :: |r| < k <= |line| && k + 1 <= maxBytes ==> !ValidUtf8(line[..k]))
      && (ValidUtf8(line) ==> ValidUtf8(r) && (r == line || |r| + 1 >= maxBytes - 3))
  {
    if ValidUtf8(line) {
      TruncationIsTight(line, maxBytes - 1);
    }
  }

  function CutAll(history: Lines, maxBytes: int): Lines {
    seq(|history|, i requires 0 <= i < |history| => CutLine(history[i], maxBytes))
  }

  /** Whether there is room for one more line. */
  lemma RoomIs(lines: Lines, line: seq<Byte>, maxLines: int, maxBytes: int)
    requires maxLines >= 1 && |line| + 1 <= maxBytes
    ensures Fits(lines + [line], maxLines, maxBytes) <==>
            |lines| < maxLines && Cost(lines) + |line| + 1 <= maxBytes
    ensures lines == [] ==> Fits(lines + [line], maxLines, maxBytes)
  {
    CostAppend(lines, line);
  }

  lemma CostDrop(lines: Lines)
    requires lines != []
    ensures Cost(lines[1..]) == Cost(lines) - (|lines[0]| + 1)
  {
  }

  /** What does not fit does not fit with one more line either. */
  lemma StillTooMuch(lines: Lines, line: seq<Byte>, maxLines: int, maxBytes: int)
    requires !Fits(lines, maxLines, maxBytes)
    ensures !Fits(lines + [line], maxLines, maxBytes)
  {
    CostAppend(lines, line);
  }

  lemma LongestIsSuffix(part: Lines, whole: Lines, maxLines: int, maxBytes: int)
    requires LongestFitting(part, whole, maxLines, maxBytes)
    ensures |part| <= |whole| && whole[|whole| - |part|..] == part
    ensures forall k :: 0 <= k < |whole| - |part| ==> !Fits(whole[k..], maxLines, maxBytes)
  {
  }

  lemma IsLongest(part: Lines, whole: Lines, d: nat, maxLines: int, maxBytes: int)
    requires d <= |whole| && part == whole[d..] && Fits(part, maxLines, maxBytes)
    requires forall k :: 0 <= k < d ==> !Fits(whole[k..], maxLines, maxBytes)
    ensures LongestFitting(part, whole, maxLines, maxBytes)
  {
  }

  /** Appending one more line that fits by itself: what fits of the new whole is that
      line after what fits of the old whole and leaves room for it. */
  lemma LongestGrows(part: Lines, d: nat, whole: Lines, line: seq<Byte>, maxLines: int, maxBytes: int)
    requires LongestFitting(part, whole, maxLines, maxBytes)
    requires d <= |part| && Fits(part[d..] + [line], maxLines, maxBytes)
    requires forall k :: 0 <= k < d ==> !Fits(part[k..] + [line], maxLines, maxBytes)
    ensures LongestFitting(part[d..] + [line], whole + [line], maxLines, maxBytes)
  {
    hide Fits, LongestFitting;
    var all, offset := whole + [line], |whole| - |part|;
    LongestIsSuffix(part, whole, maxLines, maxBytes);
    assert all[offset + d..] == part[d..] + [line];
    forall k | 0 <= k < offset + d ensures !Fits(all[k..], maxLines, maxBytes) {
      assert all[k..] == whole[k..] + [line];
      if k < offset {
        StillTooMuch(whole[k..], line, maxLines, maxBytes);
      } else {
        assert part[k - offset..] == whole[k..];
      }
    }
    IsLongest(part[d..] + [line], all, offset + d, maxLines, maxBytes);
  }

  class RuntimeLogStore {
    const maxLines: int
    const maxBytes: int
    var lines: Lines
    var bytes: int

    /** Every line appended since the last clear. */
    ghost var history: Lines

    /** Whether the budgets are too small to store anything. */
    predicate Disabled() { maxLines <= 0 || maxBytes <= 1 }

    ghost predicate Valid()
      reads this
    {
      && bytes == Cost(lines)
      && if Disabled() then lines == []
         else LongestFitting(lines, CutAll(history, maxBytes), maxLines, maxBytes)
    }

    constructor (maxLines: int, maxBytes: int)
      ensures Valid() && history == [] && lines == []
      ensures this.maxLines == maxLines && this.maxBytes == maxBytes
    {
      this.maxLines, this.maxBytes := maxLines, maxBytes;
      lines, bytes, history := [], 0, [];
    }

    /** Drops the oldest lines until there is room for one more entry; `dropped` tells how
        many. */
    method MakeRoom(entry: seq<Byte>) returns (ghost dropped: nat)
      requires bytes == Cost(lines) && maxLines >= 1 && |entry| + 1 <= maxBytes
      modifies `lines, `bytes
      ensures dropped <= |old(lines)| && lines == old(lines)[dropped..] && bytes == Cost(lines)
      ensures Fits(lines + [entry], maxLines, maxBytes)
      ensures forall k :: 0 <= k < dropped ==> !Fits(old(lines)[k..] + [entry], maxLines, maxBytes)
    {
      hide Cost, Fits;
      ghost var before := lines;
      dropped := 0;
      while |lines| > 0 && (|lines| >= maxLines || bytes + |entry| + 1 > maxBytes)
        invariant dropped <= |before| && lines == before[dropped..] && bytes == Cost(lines)
        invariant forall k :: 0 <= k < dropped ==> !Fits(before[k..] + [entry], maxLines, maxBytes)
        decreases |lines|
      {
        RoomIs(lines, entry, maxLines, maxBytes);
        CostDrop(lines);
        bytes := bytes - (|lines[0]| + 1);
        lines := lines[1..];
        dropped := dropped + 1;
      }
      RoomIs(lines, entry, maxLines, maxBytes);
    }

    method Append(line: seq<Byte>)
      requires Valid()
      modifies this
      ensures Valid() && history == old(history) + [line]
      ensures maxLines >= 1 && maxBytes >= 2 ==> lines != [] && var last := lines[|lines| - 1];
        && last <= line && |last| + 1 <= maxBytes
        && (|line| + 1 <= maxBytes ==> last == line)
        && (|line| + 1 > maxBytes ==>
              ValidUtf8(last) && forall k :: |last| < k <= |line| && k + 1 <= maxBytes ==> !ValidUtf8(line[..k]))
    {
      hide LongestFitting, Fits, IsSuffix, Cost;
      if maxLines <= 0 || maxBytes <= 1 {
        history := history + [line];
        return;
      }
      var entry := line;
      if |entry| + 1 > maxBytes {
        entry := TruncateUtf8(entry, maxBytes - 1);
      }
      ghost var before, whole := lines, CutAll(history, maxBytes);
      ghost var dropped := MakeRoom(entry);
      LongestGrows(before, dropped, whole, entry, maxLines, maxBytes);
      CostAppend(lines, entry);
      lines := lines + [entry];
      bytes := bytes + |entry| + 1;
      history := history + [line];
      assert CutAll(history, maxBytes) == whole + [entry];
    }

    method Clear()
      requires Valid()
      modifies this
      ensures Valid() && history == [] && lines == [] && bytes == 0
    {
      lines, bytes, history := [], 0, [];
    }

    /** The log as one text. It stays one byte below the count, and cutting it at the line
        ends gives back the lines, the ones with line ends inside in pieces. */
    method Snapshot() returns (text: seq<Byte>)
      requires Valid()
      ensures lines == [] ==> text == []
      ensures lines != [] ==> |text| + 1 == bytes <= maxBytes
      ensures lines != [] ==> Split(text, 10) == SplitAll(lines, 10)
      ensures lines != [] && (forall i :: 0 <= i < |lines| ==> 10 !in lines[i]) ==> Split(text, 10) == lines
    {
      text := Join(lines, NEWLINE);
      if lines != [] {
        SplitOfJoin(lines, NEWLINE);
        JoinSize(lines, NEWLINE);
        if forall i :: 0 <= i < |lines| ==> NEWLINE !in lines[i] {
          SplitAllWhole(lines, NEWLINE);
        }
      }
    }

    /** A line is dropped for want of room only: the next older one would be one line or some
        bytes too many. */
    lemma DropsForRoomOnly()
      requires Valid() && maxLines >= 1 && maxBytes >= 2
      ensures var whole := CutAll(history, maxBytes);
        var dropped := |whole| - |lines|;
        && dropped >= 0 && lines == whole[dropped..] && |lines| <= maxLines && bytes <= maxBytes
        && (dropped > 0 ==> |lines| == maxLines || bytes + |whole[dropped - 1]| + 1 > maxBytes)
    {
      var whole := CutAll(history, maxBytes);
      var dropped := |whole| - |lines|;
      if dropped > 0 {
        assert whole[dropped - 1..] == [whole[dropped - 1]] + lines;
        assert !Fits(whole[dropped - 1..], maxLines, maxBytes);
      }
    }

    /** The log holds the longest end of the history that fits both budgets, unless the
        byte budget is exactly 1: an empty line would fit it, but nothing is stored. */
    lemma HoldsLongestUnlessOneByte()
      requires Valid()
      ensures LongestFitting(lines, CutAll(history, maxBytes), maxLines, maxBytes) <==>
              !(maxBytes == 1 && maxLines >= 1 && history != [])
    {
      var whole := CutAll(history, maxBytes);
      if Disabled() && history != [] {
        forall k | 0 <= k < |whole|
          ensures maxLines <= 0 || maxBytes <= 0 ==> !Fits(whole[k..], maxLines, maxBytes) {
          assert Cost(whole[k..]) >= 1;
        }
        if maxBytes == 1 && maxLines >= 1 {
          var last := |whole| - 1;
          assert whole[last..] == [whole[last]] && whole[last] == [];
          assert Fits(whole[last..], maxLines, maxBytes);
        }
      }
    }
  }
}
