/** `src/login_bin.rs`: reading PlayOnline's `login_w.bin` and turning a slot difference
    into cursor moves. */
module LoginBin {
  import opened Wrappers
  import Seqs

  /** Rust's `u8`. */
  type Byte = x: int | 0 <= x < 0x100

  /** Rust's `i16`: assigning to it is where an overflow would be caught. */
  type I16 = x: int | -0x8000 <= x < 0x8000

  const SlotOffset: nat := 0x64
  const AutoLoginOffset: nat := 0x6F

  datatype LoginBinInfo = LoginBinInfo(currentSlot: Byte, autoLoginEnabled: bool)

  /** Why reading failed: the file could not be opened, or `read_exact` hit the end of the
      file when reading the byte at `offset`. */
  datatype LoginBinError = OpenFailed | UnexpectedEof(offset: nat)

  /** `read_login_bin` on the file's contents (`None` when it cannot be opened): seek to
      0x64 and read the slot byte, then seek to 0x6F and read the auto-login byte. */
  function ReadLoginBin(file: Option<seq<Byte>>): (r: Result<LoginBinInfo, LoginBinError>)
    ensures r.Ok? <==> file.Some? && |file.value| > AutoLoginOffset
    ensures r.Ok? ==>
      r.value.currentSlot == file.value[SlotOffset]
      && r.value.autoLoginEnabled == (file.value[AutoLoginOffset] != 0)
    ensures file.None? ==> r == Err(OpenFailed)
    ensures file.Some? && |file.value| <= SlotOffset ==> r == Err(UnexpectedEof(SlotOffset))
    ensures file.Some? && SlotOffset < |file.value| <= AutoLoginOffset ==> r == Err(UnexpectedEof(AutoLoginOffset))
  {
    match file
    case None => Err(OpenFailed)
    case Some(bytes) =>
      if |bytes| <= SlotOffset then Err(UnexpectedEof(SlotOffset))
      else
        var slotByte := bytes[SlotOffset];
        if |bytes| <= AutoLoginOffset then Err(UnexpectedEof(AutoLoginOffset))
        else Ok(LoginBinInfo(slotByte, bytes[AutoLoginOffset] != 0))
  }

  /** Only the length and the two bytes at the fixed offsets influence the result. */
  lemma ReadLoginBinReadsTwoBytes(a: seq<Byte>, b: seq<Byte>)
    requires |a| == |b| > AutoLoginOffset
    requires a[SlotOffset] == b[SlotOffset] && (a[AutoLoginOffset] == 0 <==> b[AutoLoginOffset] == 0)
    ensures ReadLoginBin(Some(a)) == ReadLoginBin(Some(b))
  {
  }

  datatype NavDirection = Up | Down

  function Delta(d: NavDirection): int
  {
    if d == Down then 1 else -1
  }

  /** The slot reached from `pos` after the moves in `steps`. */
  function Walk(pos: int, steps: seq<NavDirection>): int
  {
    if steps == [] then pos else Walk(pos, steps[..|steps| - 1]) + Delta(steps[|steps| - 1])
  }

  lemma {:induction false} WalkRepeat(pos: int, d: NavDirection, n: nat)
    ensures Walk(pos, Seqs.Repeat(d, n)) == pos + n * Delta(d)
  {
    if n > 0 {
      var s := Seqs.Repeat(d, n);
      assert s[..n - 1] == Seqs.Repeat(d, n - 1);
      WalkRepeat(pos, d, n - 1);
    }
  }

  /** `navigation_steps`: the signed difference (computed in `i16`, so never overflowing for
      `u8` operands) becomes that many Down moves, or that many Up moves, and walking them
      from `current` ends at `target`. */
  function NavigationSteps(current: Byte, target: Byte): (steps: seq<NavDirection>)
    ensures |steps| == if target >= current then target - current else current - target
    ensures target > current ==> forall i :: 0 <= i < |steps| ==> steps[i] == Down
    ensures target < current ==> forall i :: 0 <= i < |steps| ==> steps[i] == Up
    ensures Walk(current, steps) == target
  {
    var diff: I16 := target - current;
    if diff > 0 then
      WalkRepeat(current, Down, diff);
      Seqs.Repeat(Down, diff)
    else if diff < 0 then
      WalkRepeat(current, Up, -diff);
      Seqs.Repeat(Up, -diff)
    else
      []
  }
}
