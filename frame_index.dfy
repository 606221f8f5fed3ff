/** The frame index resolver of the playback server: maps the ever-growing
    logical playback counter of a frame request onto a slot of the data
    frame list (server_examples/xviz-serve-data.js, getFrameIndex). */
module FrameIndex {

  import opened Options

  /** getFrameIndex(index, framesLength). With one frame the index never moves;
      below framesLength it is used as it is; past the end it wraps with modulus
      framesLength - 1, and a remainder of 0 selects the last slot.
      The source tests `read_index === 0`, a name that is never declared; the
      evident intent, `real_index === 0`, is what is modelled here.
      For a nonnegative dividend Dafny's `%` agrees with JavaScript's, also for
      the divisor -1 that an empty frame list produces (both give 0), so an
      empty list resolves to -1, an index outside the list, as in the source. */
  function GetFrameIndex(index: nat, framesLength: nat): int {
    if framesLength == 1 then
      0
    else if index >= framesLength then
      var xvizCount := framesLength - 1;
      var realIndex := index % xvizCount;
      if realIndex == 0 then xvizCount else realIndex
    else
      index
  }

  /** getFrameIndex exactly as the source spells it: the test on the
      undeclared name `read_index` throws a ReferenceError whenever the loop
      branch is reached. None stands for that exception. */
  function GetFrameIndexAsWritten(index: nat, framesLength: nat): Option<int> {
    if framesLength == 1 then
      Some(0)
    else if index >= framesLength then
      None
    else
      Some(index)
  }

  /** As written, every logical index past the end of a list of two or more
      frames throws, so looped playback never resolves a slot; everywhere
      else the written code agrees with the intended one. */
  lemma AsWrittenThrowsWhenLooping(index: nat, framesLength: nat)
    ensures GetFrameIndexAsWritten(index, framesLength).None?
        <==> framesLength != 1 && index >= framesLength
    ensures GetFrameIndexAsWritten(index, framesLength).Some?
        ==> GetFrameIndexAsWritten(index, framesLength).value == GetFrameIndex(index, framesLength)
  {
  }

  /** The concrete input: four frames, logical index 4. */
  lemma AsWrittenLoopExample()
    ensures GetFrameIndexAsWritten(4, 4) == None && GetFrameIndex(4, 4) == 1
  {
  }

  /** A single-frame list never advances. */
  lemma SingleFrameStaysPut(index: nat)
    ensures GetFrameIndex(index, 1) == 0
  {
  }

  /** Before the end of the list is reached the logical index is the slot. */
  lemma StraightPlayback(index: nat, framesLength: nat)
    requires index < framesLength
    ensures GetFrameIndex(index, framesLength) == index
  {
  }

  /** Past the end of a list of at least two frames the result is the unique
      value in [1, framesLength - 1] congruent to the index modulo the cycle
      length framesLength - 1; it is the last slot exactly when the index is a
      multiple of the cycle length. */
  lemma LoopWrap(index: nat, framesLength: nat)
    requires framesLength > 1 && index >= framesLength
    ensures var r := GetFrameIndex(index, framesLength);
      && 1 <= r <= framesLength - 1
      && r % (framesLength - 1) == index % (framesLength - 1)
      && (r == framesLength - 1 <==> index % (framesLength - 1) == 0)
  {
    var c := framesLength - 1;
    var r := GetFrameIndex(index, framesLength);
    if index % c == 0 {
      assert r == c;
      assert c % c == 0;
    } else {
      assert r == index % c;
      ModOfRemainder(index, c);
    }
  }

  lemma ModOfRemainder(a: nat, c: nat)
    requires c > 0
    ensures (a % c) % c == a % c
  {
  }

  /** The slot sendFrame reads, frames[getFrameIndex(...)], lies inside any
      nonempty frame list; an empty list yields the out-of-range slot -1. */
  lemma ResolvedSlotInBounds(index: nat, framesLength: nat)
    ensures framesLength >= 1 ==> 0 <= GetFrameIndex(index, framesLength) < framesLength
    ensures framesLength == 0 ==> GetFrameIndex(index, framesLength) == -1
  {
    if framesLength > 1 && index >= framesLength {
      LoopWrap(index, framesLength);
    }
  }

  /** Once looping, the first data frame (slot 0) is never selected again. */
  lemma LoopSkipsFirstSlot(index: nat, framesLength: nat)
    requires framesLength > 1 && index >= framesLength
    ensures GetFrameIndex(index, framesLength) != 0
  {
    LoopWrap(index, framesLength);
  }

  /** Euclidean division is unique: a quotient and remainder in range are
      the ones `/` and `%` give. */
  lemma DivModUnique(a: int, c: int, q: int, r: int)
    requires c > 0 && 0 <= r < c && a == q * c + r
    ensures a % c == r && a / c == q
  {
    var d := q - a / c;
    assert d * c == a % c - r;
    MulOutsideUnitRange(d, c);
  }

  lemma MulOutsideUnitRange(d: int, c: int)
    requires c > 0
    ensures d > 0 ==> d * c >= c
    ensures d < 0 ==> d * c <= -c
    decreases if d < 0 then -d else d
  {
    if d > 1 {
      MulOutsideUnitRange(d - 1, c);
      assert d * c == (d - 1) * c + c;
    } else if d < -1 {
      MulOutsideUnitRange(d + 1, c);
      assert d * c == (d + 1) * c - c;
    }
  }

  lemma ModSuccessor(i: nat, c: nat)
    requires c > 0
    ensures (i + 1) % c == if i % c == c - 1 then 0 else i % c + 1
  {
    var q, r := i / c, i % c;
    if r == c - 1 {
      DivModUnique(i + 1, c, q + 1, 0);
    } else {
      DivModUnique(i + 1, c, q, r + 1);
    }
  }

  /** From the last slot of the straight run on, each step of the logical
      counter advances the slot by one through 1 .. framesLength - 1 and
      returns from the last slot to slot 1. */
  lemma LoopSuccessor(index: nat, framesLength: nat)
    requires framesLength > 2 && index >= framesLength - 1
    ensures var r := GetFrameIndex(index, framesLength);
      GetFrameIndex(index + 1, framesLength) == if r == framesLength - 1 then 1 else r + 1
  {
    var c := framesLength - 1;
    if index == c {
      assert GetFrameIndex(index, framesLength) == c;
      assert framesLength == 1 * c + 1;
      assert framesLength % c == 1;
    } else {
      ModSuccessor(index, c);
    }
  }

  /** With at least three frames, two successive logical indices never show
      the same slot, neither in the straight run nor across a loop boundary. */
  lemma NoRepeatedFrame(index: nat, framesLength: nat)
    requires framesLength > 2
    ensures GetFrameIndex(index + 1, framesLength) != GetFrameIndex(index, framesLength)
  {
    if index >= framesLength - 1 {
      LoopSuccessor(index, framesLength);
      LoopWrapOrLast(index, framesLength);
    }
  }

  lemma LoopWrapOrLast(index: nat, framesLength: nat)
    requires framesLength > 2 && index >= framesLength - 1
    ensures 1 <= GetFrameIndex(index, framesLength) <= framesLength - 1
  {
    if index >= framesLength {
      LoopWrap(index, framesLength);
    }
  }

  /** Past the end the slots repeat with period framesLength - 1. */
  lemma LoopPeriodic(index: nat, framesLength: nat)
    requires framesLength > 1 && index >= framesLength
    ensures GetFrameIndex(index + (framesLength - 1), framesLength) == GetFrameIndex(index, framesLength)
  {
    var c := framesLength - 1;
    DivModUnique(index + c, c, index / c + 1, index % c);
  }

  /** Four frames, eight ticks: the slots the code produces. */
  lemma LoopScenario()
    ensures [GetFrameIndex(0, 4), GetFrameIndex(1, 4), GetFrameIndex(2, 4), GetFrameIndex(3, 4),
             GetFrameIndex(4, 4), GetFrameIndex(5, 4), GetFrameIndex(6, 4), GetFrameIndex(7, 4)]
          == [0, 1, 2, 3, 1, 2, 3, 1]
  {
  }
}
