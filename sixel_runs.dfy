/**
 * Run-length compression of one colour row of sixel characters.
 *
 * A row is a sequence of 6-bit masks, one per pixel column. Equal
 * neighbouring masks are gathered into runs; a run of 1 to 3 is written as
 * that many copies of the sixel character `63 + mask`, a longer run as
 * `!count` followed by the character, and a run of the empty mask at the
 * very end of the row is not written at all (DEC sixel graphics, the
 * graphics repeat introducer `!`).
 */
module SixelRuns {
  import opened DecimalText
  import opened Wrappers

  predicate IsMask(m: int) {
    0 <= m < 64
  }

  predicate AllMasks(ms: seq<int>) {
    forall i | 0 <= i < |ms| :: IsMask(ms[i])
  }

  /** A data character of the sixel alphabet, '?' (63) to '~' (126). */
  predicate IsSixelChar(c: char) {
    '?' <= c <= '~'
  }

  function SixelChar(m: int): (c: char)
    requires IsMask(m)
    ensures IsSixelChar(c) && c as int - 63 == m
  {
    (63 + m) as char
  }

  function Repeat(m: int, n: nat): (r: seq<int>)
    ensures |r| == n && forall i | 0 <= i < n :: r[i] == m
  {
    seq(n, _ => m)
  }

  /** `count` consecutive columns carrying the same mask. */
  datatype Run = Run(mask: int, count: nat)

  function Flatten(rs: seq<Run>): (ms: seq<int>)
  {
    if rs == [] then [] else Repeat(rs[0].mask, rs[0].count) + Flatten(rs[1..])
  }

  predicate RunsWellFormed(rs: seq<Run>) {
    forall i | 0 <= i < |rs| :: IsMask(rs[i].mask)
  }

  /** Runs that are non-empty, hold masks, and differ from their neighbours. */
  predicate Maximal(rs: seq<Run>) {
    && (forall i | 0 <= i < |rs| :: rs[i].count >= 1 && IsMask(rs[i].mask))
    && (forall i | 0 <= i < |rs| - 1 :: rs[i].mask != rs[i + 1].mask)
  }

  /** Length of the run of equal masks that `ms` starts with. */
  function LeadRun(ms: seq<int>): (k: nat)
    requires ms != []
    ensures 1 <= k <= |ms|
    ensures forall i | 0 <= i < k :: ms[i] == ms[0]
    ensures k < |ms| ==> ms[k] != ms[0]
    decreases |ms|
  {
    if |ms| == 1 || ms[1] != ms[0] then 1
    else
      var k := 1 + LeadRun(ms[1..]);
      assert forall i | 1 <= i < k :: ms[i] == ms[1..][i - 1];
      k
  }

  lemma LeadRunUnique(ms: seq<int>, k: nat)
    requires 1 <= k <= |ms|
    requires forall i | 0 <= i < k :: ms[i] == ms[0]
    requires k < |ms| ==> ms[k] != ms[0]
    ensures LeadRun(ms) == k
  {
  }

  /** The maximal runs of a row of masks, from left to right. */
  function RunsOf(ms: seq<int>): (rs: seq<Run>)
    ensures Flatten(rs) == ms
    ensures ms != [] ==> rs != [] && rs[0].mask == ms[0]
    ensures AllMasks(ms) ==> RunsWellFormed(rs)
    decreases |ms|
  {
    if ms == [] then []
    else
      var k := LeadRun(ms);
      assert ms == Repeat(ms[0], k) + ms[k..];
      assert AllMasks(ms) ==> AllMasks(ms[k..]);
      [Run(ms[0], k)] + RunsOf(ms[k..])
  }

  /** The runs of a row of masks are maximal. */
  lemma {:induction false} RunsOfMaximal(ms: seq<int>)
    requires AllMasks(ms)
    ensures Maximal(RunsOf(ms))
    decreases |ms|
  {
    if ms != [] {
      var k := LeadRun(ms);
      var tail := RunsOf(ms[k..]);
      RunsOfMaximal(ms[k..]);
      assert RunsOf(ms) == [Run(ms[0], k)] + tail;
      assert tail != [] ==> tail[0].mask == ms[k] != ms[0];
    }
  }

  /** The text `commit` appends for `repeats` copies of mask `m`. */
  function RunText(m: int, repeats: int): (s: string)
    requires repeats >= 0
    requires repeats > 0 ==> IsMask(m)
  {
    if repeats == 0 then ""
    else if repeats == 1 then [SixelChar(m)]
    else if repeats == 2 then [SixelChar(m), SixelChar(m)]
    else if repeats == 3 then [SixelChar(m), SixelChar(m), SixelChar(m)]
    else "!" + Show(repeats) + [SixelChar(m)]
  }

  function Texts(rs: seq<Run>): string
    requires RunsWellFormed(rs)
  {
    if rs == [] then "" else RunText(rs[0].mask, rs[0].count) + Texts(rs[1..])
  }

  function Last<T>(s: seq<T>): T
    requires s != []
  {
    s[|s| - 1]
  }

  /** The compressed text of a whole row: every run, except a final run of mask 0. */
  function RunLength(ms: seq<int>): string
    requires AllMasks(ms)
  {
    var rs := RunsOf(ms);
    if rs != [] && Last(rs).mask == 0 then Texts(rs[..|rs| - 1]) else Texts(rs)
  }

  /** `ms` without its trailing empty masks. */
  function TrimZeros(ms: seq<int>): (r: seq<int>)
    ensures |r| <= |ms| && r == ms[..|r|]
    ensures r == [] || Last(r) != 0
    ensures forall i | |r| <= i < |ms| :: ms[i] == 0
  {
    if ms != [] && Last(ms) == 0 then TrimZeros(ms[..|ms| - 1]) else ms
  }

  /** Decoder: the masks a run-length text stands for, or None if it is malformed. */
  function Expand(s: string): Option<seq<int>>
    decreases |s|
  {
    if s == [] then Some([])
    else if s[0] == '!' then
      var t := s[1..];
      var k := SpanDigits(t);
      if k == 0 || k == |t| || !IsSixelChar(t[k]) then None
      else match Expand(t[k + 1..])
        case None => None
        case Some(rest) => Some(Repeat(t[k] as int - 63, ParseDigits(t[..k])) + rest)
    else if IsSixelChar(s[0]) then
      match Expand(s[1..])
      case None => None
      case Some(rest) => Some([s[0] as int - 63] + rest)
    else None
  }

  /** The text of every row is built from sixel characters, '!' and digits only. */
  predicate IsRunText(s: string) {
    forall i | 0 <= i < |s| :: IsSixelChar(s[i]) || s[i] == '!' || IsDigit(s[i])
  }

  lemma RunTextAlphabet(m: int, repeats: int)
    requires repeats >= 0 && (repeats > 0 ==> IsMask(m))
    ensures IsRunText(RunText(m, repeats))
  {
    if repeats >= 4 {
      var s := RunText(m, repeats);
      assert s == "!" + Show(repeats) + [SixelChar(m)];
      forall i | 1 <= i < |s| - 1 ensures IsDigit(s[i]) {
        assert s[i] == Show(repeats)[i - 1];
      }
    }
  }

  lemma {:induction false} TextsAlphabet(rs: seq<Run>)
    requires RunsWellFormed(rs)
    ensures IsRunText(Texts(rs))
  {
    if rs != [] {
      RunTextAlphabet(rs[0].mask, rs[0].count);
      TextsAlphabet(rs[1..]);
    }
  }

  /** A row's text starts with a data character or '!', never with a digit. */
  lemma RunLengthHead(ms: seq<int>)
    requires AllMasks(ms)
    ensures RunLength(ms) == [] || IsSixelChar(RunLength(ms)[0]) || RunLength(ms)[0] == '!'
  {
    var rs := RunsOf(ms);
    RunsOfMaximal(ms);
    if rs != [] {
      var init := rs[..|rs| - 1];
      if init != [] {
        assert init[0] == rs[0];
        assert Texts(init) == RunText(rs[0].mask, rs[0].count) + Texts(init[1..]);
      }
      assert Texts(rs) == RunText(rs[0].mask, rs[0].count) + Texts(rs[1..]);
    }
  }

  lemma RunLengthAlphabet(ms: seq<int>)
    requires AllMasks(ms)
    ensures IsRunText(RunLength(ms))
  {
    var rs := RunsOf(ms);
    if rs != [] { TextsAlphabet(rs[..|rs| - 1]); }
    TextsAlphabet(rs);
  }

  /** Expanding the text of one run, followed by more text, yields the run first. */
  lemma ExpandRunText(m: int, n: nat, rest: string, tail: seq<int>)
    requires IsMask(m)
    requires Expand(rest) == Some(tail)
    ensures Expand(RunText(m, n) + rest) == Some(Repeat(m, n) + tail)
  {
    if n >= 4 {
      ExpandLongRun(m, n, rest, tail);
    } else {
      ExpandShortRun(m, n, rest, tail);
    }
  }

  lemma ExpandShortRun(m: int, n: nat, rest: string, tail: seq<int>)
    requires IsMask(m) && n < 4
    requires Expand(rest) == Some(tail)
    ensures Expand(RunText(m, n) + rest) == Some(Repeat(m, n) + tail)
  {
    ShortRunText(m, n);
    ExpandCopies(m, n, rest, tail);
  }

  /** `n` copies of the sixel character of `m`. */
  function Copies(m: int, n: nat): (s: string)
    requires IsMask(m)
    ensures |s| == n
  {
    seq(n, _ => SixelChar(m))
  }

  lemma ShortRunText(m: int, n: nat)
    requires IsMask(m) && n < 4
    ensures RunText(m, n) == Copies(m, n)
  {
  }

  lemma {:induction false} ExpandCopies(m: int, n: nat, rest: string, tail: seq<int>)
    requires IsMask(m)
    requires Expand(rest) == Some(tail)
    ensures Expand(Copies(m, n) + rest) == Some(Repeat(m, n) + tail)
  {
    if n > 0 {
      ExpandCopies(m, n - 1, rest, tail);
      CopiesCons(m, n, rest, tail);
      ExpandOne(m, Copies(m, n - 1) + rest, Repeat(m, n - 1) + tail);
    } else {
      assert Copies(m, n) + rest == rest && Repeat(m, n) + tail == tail;
    }
  }

  lemma CopiesCons(m: int, n: nat, rest: string, tail: seq<int>)
    requires IsMask(m) && n > 0
    ensures Copies(m, n) + rest == [SixelChar(m)] + (Copies(m, n - 1) + rest)
    ensures Repeat(m, n) + tail == [m] + (Repeat(m, n - 1) + tail)
  {
  }

  lemma ExpandLongRun(m: int, n: nat, rest: string, tail: seq<int>)
    requires IsMask(m) && n >= 4
    requires Expand(rest) == Some(tail)
    ensures Expand(RunText(m, n) + rest) == Some(Repeat(m, n) + tail)
  {
    assert RunText(m, n) + rest == "!" + Show(n) + [SixelChar(m)] + rest;
    ExpandRepeat(Show(n), SixelChar(m), rest, tail);
    DigitsRoundTrip(n);
  }

  /** A repeat introducer with count `d` expands to that many copies of its character. */
  lemma ExpandRepeat(d: string, c: char, rest: string, tail: seq<int>)
    requires d != [] && AllDigits(d) && IsSixelChar(c)
    requires Expand(rest) == Some(tail)
    ensures Expand("!" + d + [c] + rest) == Some(Repeat(c as int - 63, ParseDigits(d)) + tail)
  {
    var t := ("!" + d + [c] + rest)[1..];
    assert t == d + ([c] + rest);
    SpanDigitsPrefix(d, [c] + rest);
    assert t[..|d|] == d && t[|d|] == c && t[|d| + 1..] == rest;
  }

  lemma ExpandOne(m: int, rest: string, tail: seq<int>)
    requires IsMask(m)
    requires Expand(rest) == Some(tail)
    ensures Expand([SixelChar(m)] + rest) == Some([m] + tail)
  {
    assert ([SixelChar(m)] + rest)[1..] == rest;
  }

  lemma {:induction false} ExpandTexts(rs: seq<Run>)
    requires RunsWellFormed(rs)
    ensures Expand(Texts(rs)) == Some(Flatten(rs))
  {
    if rs != [] {
      ExpandTexts(rs[1..]);
      ExpandRunText(rs[0].mask, rs[0].count, Texts(rs[1..]), Flatten(rs[1..]));
    }
  }

  lemma {:induction false} FlattenSplit(rs: seq<Run>)
    requires rs != []
    ensures Flatten(rs) == Flatten(rs[..|rs| - 1]) + Repeat(Last(rs).mask, Last(rs).count)
  {
    if |rs| > 1 {
      FlattenSplit(rs[1..]);
      assert rs[1..][..|rs| - 2] == rs[..|rs| - 1][1..];
    }
  }

  lemma {:induction false} TrimZerosAppend(ms: seq<int>, n: nat)
    ensures TrimZeros(ms + Repeat(0, n)) == TrimZeros(ms)
    decreases n
  {
    if n > 0 {
      assert (ms + Repeat(0, n))[..|ms| + n - 1] == ms + Repeat(0, n - 1);
      TrimZerosAppend(ms, n - 1);
    } else {
      assert ms + Repeat(0, n) == ms;
    }
  }

  /**
   * Round trip: decoding the compressed text of a row reproduces the row
   * exactly, up to its trailing empty masks, which are dropped.
   */
  lemma RunLengthRoundTrip(ms: seq<int>)
    requires AllMasks(ms)
    ensures Expand(RunLength(ms)) == Some(TrimZeros(ms))
  {
    var rs := RunsOf(ms);
    if rs == [] {
    } else if Last(rs).mask != 0 {
      ExpandTexts(rs);
      FlattenSplit(rs);
      RunsOfMaximal(ms);
      assert Last(ms) == Last(rs).mask;
    } else {
      var init := rs[..|rs| - 1];
      ExpandTexts(init);
      FlattenSplit(rs);
      TrimZerosAppend(Flatten(init), Last(rs).count);
      if init != [] {
        RunsOfMaximal(ms);
        FlattenSplit(init);
        assert Last(init).mask != 0;
        assert Last(Flatten(init)) == Last(init).mask;
      }
    }
  }

  /** Lengthening the last run by one column. */
  function Bump(rs: seq<Run>): seq<Run>
    requires rs != []
  {
    rs[..|rs| - 1] + [Run(Last(rs).mask, Last(rs).count + 1)]
  }

  /** Adding one column to a row extends its last run or starts a new one. */
  lemma {:induction false} RunsOfSnoc(ms: seq<int>, c: int)
    ensures ms != [] && Last(ms) == c ==> RunsOf(ms + [c]) == Bump(RunsOf(ms))
    ensures ms == [] || Last(ms) != c ==> RunsOf(ms + [c]) == RunsOf(ms) + [Run(c, 1)]
    decreases |ms|
  {
    if ms == [] {
      assert RunsOf([c]) == [Run(c, 1)] + RunsOf([]);
    } else if LeadRun(ms) == |ms| {
      RunsOfSnocOneRun(ms, c);
    } else {
      var k := LeadRun(ms);
      RunsOfSnoc(ms[k..], c);
      RunsOfSnocStep(ms, c);
    }
  }

  lemma RunsOfSnocOneRun(ms: seq<int>, c: int)
    requires ms != [] && LeadRun(ms) == |ms|
    ensures Last(ms) == c ==> RunsOf(ms + [c]) == Bump(RunsOf(ms))
    ensures Last(ms) != c ==> RunsOf(ms + [c]) == RunsOf(ms) + [Run(c, 1)]
  {
    var m, k := ms[0], |ms|;
    assert ms == Repeat(m, k);
    RunsOfRepeat(m, k);
    if c == m {
      assert ms + [c] == Repeat(m, k + 1);
      RunsOfRepeat(m, k + 1);
      BumpSingle(Run(m, k));
    } else {
      RunsOfRepeatThen(m, k, c);
    }
  }

  /** Lengthening the only run. */
  lemma BumpSingle(r: Run)
    ensures Bump([r]) == [Run(r.mask, r.count + 1)]
  {
    assert [r][..0] == [];
  }

  /** A row of one repeated mask is one run. */
  lemma RunsOfRepeat(m: int, k: nat)
    requires k >= 1
    ensures RunsOf(Repeat(m, k)) == [Run(m, k)]
  {
    var ms := Repeat(m, k);
    LeadRunUnique(ms, k);
    assert ms[k..] == [];
  }

  /** A run followed by one column of another mask is two runs. */
  lemma RunsOfRepeatThen(m: int, k: nat, c: int)
    requires k >= 1 && c != m
    ensures RunsOf(Repeat(m, k) + [c]) == [Run(m, k), Run(c, 1)]
  {
    var ms := Repeat(m, k) + [c];
    LeadRunUnique(ms, k);
    assert ms[k..] == Repeat(c, 1);
    RunsOfRepeat(c, 1);
  }

  lemma RunsOfSnocStep(ms: seq<int>, c: int)
    requires ms != [] && LeadRun(ms) < |ms|
    requires var t := ms[LeadRun(ms)..];
             (Last(t) == c ==> RunsOf(t + [c]) == Bump(RunsOf(t))) &&
             (Last(t) != c ==> RunsOf(t + [c]) == RunsOf(t) + [Run(c, 1)])
    ensures Last(ms) == c ==> RunsOf(ms + [c]) == Bump(RunsOf(ms))
    ensures Last(ms) != c ==> RunsOf(ms + [c]) == RunsOf(ms) + [Run(c, 1)]
  {
    var k := LeadRun(ms);
    var ms' := ms + [c];
    var t := ms[k..];
    LeadRunUnique(ms', k);
    SnocSlice(ms, c, k);
    var head := Run(ms[0], k);
    var tail := RunsOf(t);
    assert RunsOf(ms) == [head] + tail;
    assert RunsOf(ms') == [head] + RunsOf(t + [c]);
    if Last(ms) == c {
      BumpCons(head, tail);
    } else {
      SnocCons(head, tail, Run(c, 1));
    }
  }

  lemma SnocSlice<T>(s: seq<T>, x: T, k: nat)
    requires k < |s|
    ensures (s + [x])[k..] == s[k..] + [x]
    ensures Last(s[k..]) == Last(s)
  {
  }

  lemma BumpCons(head: Run, tail: seq<Run>)
    requires tail != []
    ensures Bump([head] + tail) == [head] + Bump(tail)
  {
  }

  lemma SnocCons<T>(head: T, tail: seq<T>, x: T)
    ensures [head] + tail + [x] == [head] + (tail + [x])
  {
  }

  lemma BumpShape(rs: seq<Run>)
    requires rs != []
    ensures Bump(rs) != [] && Bump(rs)[..|rs| - 1] == rs[..|rs| - 1]
    ensures Last(Bump(rs)) == Run(Last(rs).mask, Last(rs).count + 1)
  {
  }

  lemma SnocShape<T>(s: seq<T>, x: T)
    ensures (s + [x])[..|s|] == s && Last(s + [x]) == x
  {
  }

  lemma InitLast<T>(s: seq<T>)
    requires s != []
    ensures s[..|s| - 1] + [Last(s)] == s
  {
  }

  lemma {:induction false} TextsSnoc(rs: seq<Run>, r: Run)
    requires RunsWellFormed(rs) && IsMask(r.mask)
    ensures Texts(rs + [r]) == Texts(rs) + RunText(r.mask, r.count)
  {
    if rs == [] {
      assert Texts([r]) == RunText(r.mask, r.count) + Texts([]);
    } else {
      var t := rs + [r];
      assert t[0] == rs[0] && t[1..] == rs[1..] + [r];
      TextsSnoc(rs[1..], r);
      Associate(RunText(rs[0].mask, rs[0].count), Texts(rs[1..]), RunText(r.mask, r.count));
    }
  }

  /**
   * The state of a run buffer that has been given the masks `added`:
   * `buffer` holds the text of every run but the last, which
   * `current`/`repeats` describe; `current` is 255 while nothing has been
   * added.
   */
  ghost predicate RunState(added: seq<int>, buffer: string, current: int, repeats: int) {
    AllMasks(added) && RunsState(RunsOf(added), buffer, current, repeats)
  }

  /** Flushing the pending run, unless it is empty, completes the compressed row. */
  lemma FinishState(added: seq<int>, buffer: string, current: int, repeats: int)
    requires RunState(added, buffer, current, repeats)
    ensures repeats >= 0 && (repeats > 0 ==> IsMask(current))
    ensures RunLength(added) == buffer + if current == 0 then "" else RunText(current, repeats)
  {
    var rs := RunsOf(added);
    if rs != [] {
      InitLast(rs);
      TextsSnoc(rs[..|rs| - 1], Last(rs));
    }
  }

  /** The same, in terms of the runs of the added masks. */
  ghost predicate RunsState(rs: seq<Run>, buffer: string, current: int, repeats: int) {
    && RunsWellFormed(rs)
    && (rs == [] ==> current == 255 && repeats == 0 && buffer == "")
    && (rs != [] ==> current == Last(rs).mask && repeats == Last(rs).count
                     && buffer == Texts(rs[..|rs| - 1]))
  }

  /** The last run of a row carries the row's last mask. */
  lemma LastRun(ms: seq<int>)
    requires AllMasks(ms)
    ensures ms == [] <==> RunsOf(ms) == []
    ensures ms != [] ==> Last(RunsOf(ms)).mask == Last(ms)
  {
    if ms != [] {
      var rs := RunsOf(ms);
      FlattenSplit(rs);
      RunsOfMaximal(ms);
      assert Last(rs).count >= 1;
    }
  }

  lemma AllMasksSnoc(ms: seq<int>, c: int)
    requires AllMasks(ms) && IsMask(c)
    ensures AllMasks(ms + [c])
  {
  }

  /** Adding the mask of the open run lengthens it. */
  lemma AddSameMask(added: seq<int>, buffer: string, current: int, repeats: int, c: int)
    requires RunState(added, buffer, current, repeats) && IsMask(c) && c == current
    ensures RunState(added + [c], buffer, current, repeats + 1)
  {
    LastRun(added);
    RunsOfSnoc(added, c);
    AllMasksSnoc(added, c);
    BumpState(RunsOf(added), buffer);
  }

  lemma BumpState(rs: seq<Run>, buffer: string)
    requires rs != [] && RunsState(rs, buffer, Last(rs).mask, Last(rs).count)
    ensures RunsState(Bump(rs), buffer, Last(rs).mask, Last(rs).count + 1)
  {
    BumpShape(rs);
  }

  /** Adding another mask closes the open run, appending its text, and opens a run of one. */
  lemma AddNewMask(added: seq<int>, buffer: string, current: int, repeats: int, c: int)
    requires RunState(added, buffer, current, repeats) && IsMask(c) && c != current
    ensures repeats >= 0 && (repeats > 0 ==> IsMask(current))
    ensures RunState(added + [c], buffer + RunText(current, repeats), c, 1)
  {
    LastRun(added);
    RunsOfSnoc(added, c);
    AllMasksSnoc(added, c);
    var rs := RunsOf(added);
    NewRunState(rs, buffer, current, repeats, c);
  }

  lemma NewRunState(rs: seq<Run>, buffer: string, current: int, repeats: int, c: int)
    requires RunsState(rs, buffer, current, repeats) && IsMask(c)
    ensures repeats >= 0 && (repeats > 0 ==> IsMask(current))
    ensures RunsState(rs + [Run(c, 1)], buffer + RunText(current, repeats), c, 1)
  {
    if rs != [] {
      InitLast(rs);
      TextsSnoc(rs[..|rs| - 1], Last(rs));
    }
    SnocShape(rs, Run(c, 1));
  }

  /**
   * The run buffer of the encoder (`buffer`, `current`, `repeats` with the
   * helpers `clear`, `add` and `commit`). `Added` is the row added so far.
   */
  class RunBuffer {
    var buffer: string
    var current: int
    var repeats: int
    ghost var Added: seq<int>

    ghost predicate Valid()
      reads this
    {
      RunState(Added, buffer, current, repeats)
    }

    constructor ()
      ensures Valid() && Added == []
    {
      buffer, current, repeats := "", 255, 0;
      Added := [];
    }

    method Clear()
      modifies this
      ensures Valid() && Added == []
    {
      buffer := "";
      repeats := 0;
      current := 255;
      Added := [];
    }

    method Add(c: int)
      requires Valid() && IsMask(c)
      modifies this
      ensures Valid() && Added == old(Added) + [c]
    {
      if c == current {
        AddSameMask(Added, buffer, current, repeats, c);
        repeats := repeats + 1;
      } else {
        AddNewMask(Added, buffer, current, repeats, c);
        Commit(false);
        current := c;
        repeats := 1;
      }
      Added := Added + [c];
    }

    method Commit(isLast: bool)
      requires repeats >= 0 && (repeats > 0 ==> IsMask(current))
      modifies this`buffer
      ensures buffer == old(buffer) + (if isLast && current == 0 then "" else RunText(current, repeats))
      ensures isLast && old(Valid()) ==> buffer == RunLength(Added)
    {
      if isLast && old(Valid()) {
        FinishState(Added, buffer, current, repeats);
      }
      if isLast && current == 0 {
        return;
      }
      var run := "";
      if repeats == 0 {
      } else if repeats == 3 {
        var c := SixelChar(current);
        run := [c, c, c];
      } else if repeats == 2 {
        var c := SixelChar(current);
        run := [c, c];
      } else if repeats == 1 {
        run := [SixelChar(current)];
      } else {
        run := "!" + Show(repeats) + [SixelChar(current)];
      }
      assert run == RunText(current, repeats);
      buffer := buffer + run;
    }
  }
}
