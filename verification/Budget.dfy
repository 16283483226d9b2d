/**
 The single wait budget every hop of a ceremony draws on (`Deadline`), and the soft token's
 sliced way of spending from it. Durations are whole nanoseconds.
 */
module Budget {
  import opened Wrappers
  import opened ByteOrder

  /** The ceremony phase a timeout names. */
  datatype Phase =
    | Enumeration
    | Connect
    | ChannelOpen
    | CommandExchange
    | UserPresence
    | GetAssertionPhase
    | GetInfoPhase
    | GetNextAssertionPhase
    | ClientPinPhase
    | Release

  datatype Expired = Timeout(phase: Phase)

  const MILLISECOND: nat := 1_000_000
  const DEFAULT_WAIT_SLICE: nat := 30_000 * MILLISECOND

  function Min(a: nat, b: nat): nat {
    if a <= b then a else b
  }

  function Max(a: int, b: int): int {
    if a >= b then a else b
  }

  /** `nanos`: saturates at the largest 64-bit count. */
  function Nanos(d: nat): (n: nat)
    ensures n < U64 && n <= d
  {
    if d < U64 then d else U64 - 1
  }

  class Deadline {
    var remaining: nat

    ghost predicate Valid()
      reads this
    {
      remaining < U64
    }

    constructor (total: nat)
      ensures Valid() && remaining == Nanos(total)
    {
      remaining := Nanos(total);
    }

    /** Spends `d` whole, or exhausts the budget. */
    method Consume(d: nat) returns (r: Result<nat, Expired>)
      requires Valid()
      modifies this
      ensures Valid() && remaining == Left(old(remaining), Spend(d))
      ensures r.Ok? <==> Nanos(d) <= old(remaining)
      ensures r == if r.Ok? then Ok(remaining) else Err(Timeout(CommandExchange))
    {
      var left := remaining;
      var cost := Nanos(d);
      if left < cost {
        remaining := 0;
        return Err(Timeout(CommandExchange));
      }
      remaining := left - cost;
      r := Ok(remaining);
    }

    /** Grants the shorter of `requested` and what remains; nothing once exhausted. */
    method ConsumeSlice(requested: nat) returns (granted: Option<nat>)
      requires Valid()
      modifies this
      ensures Valid() && remaining == Left(old(remaining), Slice(requested))
      ensures granted == if old(remaining) == 0 then None else Some(Charge(old(remaining), Slice(requested)))
    {
      var left := remaining;
      if left == 0 {
        return None;
      }
      var grant := Min(Nanos(requested), left);
      remaining := left - grant;
      granted := Some(grant);
    }

    /** `consume_budget_slice`: spends `d` in slices of at most `DEFAULT_WAIT_SLICE`. */
    method ConsumeInSlices(d: nat, phase: Phase) returns (r: Result<(), Expired>)
      requires Valid()
      modifies this
      ensures Valid() && remaining == Left(old(remaining), InSlices(d))
      ensures r == if d <= old(remaining) then Ok(()) else Err(Timeout(phase))
    {
      var owed := d;
      while owed > 0
        invariant Valid() && 0 <= owed <= d && old(remaining) - remaining == d - owed
      {
        var slice := ConsumeSlice(Min(owed, DEFAULT_WAIT_SLICE));
        if slice.None? {
          return Err(Timeout(phase));
        }
        owed := Max(owed - slice.value, 0);
      }
      r := Ok(());
    }
  }

  // ---- any mix of spending over a whole ceremony

  datatype Spending =
    | Spend(d: nat)
    | Slice(requested: nat)
    | InSlices(total: nat)

  /** What a call asks for. */
  function Cost(s: Spending): nat {
    match s
    case Spend(d) => Nanos(d)
    case Slice(requested) => Nanos(requested)
    case InSlices(total) => total
  }

  /** What a call takes when `left` is there: all it asks for, or everything. */
  function Charge(left: nat, s: Spending): nat {
    Min(Cost(s), left)
  }

  /** What one call leaves of `left`: the rest if its full cost is there, nothing otherwise. */
  function Left(left: nat, s: Spending): (after: nat)
    ensures after <= left
  {
    if Cost(s) <= left then left - Cost(s) else 0
  }

  /** What a run of calls leaves. */
  function LeftAfter(left: nat, run: seq<Spending>): (after: nat)
    ensures after <= left
  {
    if run == [] then left else LeftAfter(Left(left, run[0]), run[1..])
  }

  /** What each call of a run takes. */
  function Charges(left: nat, run: seq<Spending>): (c: seq<nat>)
    ensures |c| == |run|
  {
    if run == [] then [] else [Charge(left, run[0])] + Charges(Left(left, run[0]), run[1..])
  }

  function Sum(s: seq<nat>): nat {
    if s == [] then 0 else s[0] + Sum(s[1..])
  }

  /** What a run asks for in all. */
  function TotalCost(run: seq<Spending>): nat {
    if run == [] then 0 else Cost(run[0]) + TotalCost(run[1..])
  }

  /**
   Conservation over any mix of calls: together they take the total they ask for, or the whole
   budget when that is less, and exactly the rest is left.
   */
  lemma {:induction false} BudgetConserved(left: nat, run: seq<Spending>)
    ensures Sum(Charges(left, run)) == Min(TotalCost(run), left)
    ensures LeftAfter(left, run) == Max(left - TotalCost(run), 0)
    ensures Sum(Charges(left, run)) + LeftAfter(left, run) == left
  {
    if run != [] {
      BudgetConserved(Left(left, run[0]), run[1..]);
      assert Charges(left, run)[1..] == Charges(Left(left, run[0]), run[1..]);
    }
  }

  /** Where each call of a run is made: its prefix decides. */
  lemma {:induction false} RunSplit(left: nat, run: seq<Spending>, tail: seq<Spending>)
    ensures LeftAfter(left, run + tail) == LeftAfter(LeftAfter(left, run), tail)
  {
    if run != [] {
      RunSplit(Left(left, run[0]), run[1..], tail);
      assert (run + tail)[1..] == run[1..] + tail;
    } else {
      assert run + tail == tail;
    }
  }

  /** An exhausted budget stays exhausted, so every later slice is refused. */
  lemma {:induction false} ExhaustedForGood(left: nat, run: seq<Spending>, k: nat)
    requires k <= |run| && LeftAfter(left, run[..k]) == 0
    ensures LeftAfter(left, run) == 0
  {
    assert run == run[..k] + run[k..];
    RunSplit(left, run[..k], run[k..]);
  }

  /**
   Sliced spending refines one-shot spending: the remainders never differ, and the outcomes agree
   unless the duration does not fit 64 bits while the budget is the largest that does.
   */
  lemma {:induction false} SlicedRefinesOneShot(left: nat, d: nat)
    requires left < U64
    ensures Left(left, InSlices(d)) == Left(left, Spend(d))
    ensures (Nanos(d) <= left <==> d <= left) <==> (d < U64 || left < U64 - 1)
  {
  }

  /** Any sequence of slices takes together what one slice of their total length would take. */
  lemma {:induction false} SlicesTakeTheTotal(left: nat, lengths: seq<nat>)
    requires left < U64
    ensures LeftAfter(left, Slices(lengths)) == Left(left, Slice(Sum(lengths)))
  {
    BudgetConserved(left, Slices(lengths));
    SlicesCost(lengths);
  }

  function Slices(lengths: seq<nat>): seq<Spending> {
    if lengths == [] then [] else [Slice(lengths[0])] + Slices(lengths[1..])
  }

  /** The slices ask for their total length, give or take what does not fit 64 bits. */
  lemma {:induction false} SlicesCost(lengths: seq<nat>)
    ensures Nanos(TotalCost(Slices(lengths))) == Nanos(Sum(lengths))
  {
    if lengths != [] {
      SlicesCost(lengths[1..]);
      assert Slices(lengths)[1..] == Slices(lengths[1..]);
    }
  }
}
