/**
 * The input-mode state machine of `src/key.rs`: five modes, a constant table
 * listing them in cycle order, and the successor and predecessor functions.
 */
module Key {

  /** The mode that decides which text buffer receives keystrokes. */
  datatype InputMode = Normal | EditingSearch | EditingTitle | EditingLanguage | EditingCode

  /** The constant `modes` table: every mode once, in cycle order. */
  const Modes: seq<InputMode> := [Normal, EditingSearch, EditingTitle, EditingLanguage, EditingCode]

  /** Position of a mode in the `Modes` table. */
  function Index(m: InputMode): (i: nat)
    ensures i < |Modes| && Modes[i] == m
  {
    match m
    case Normal => 0
    case EditingSearch => 1
    case EditingTitle => 2
    case EditingLanguage => 3
    case EditingCode => 4
  }

  /** `next_mode`: one step forward around the cycle. */
  function NextMode(m: InputMode): (r: InputMode)
    ensures Index(r) == (Index(m) + 1) % |Modes|
    ensures r != m
  {
    match m
    case Normal => EditingSearch
    case EditingSearch => EditingTitle
    case EditingTitle => EditingLanguage
    case EditingLanguage => EditingCode
    case EditingCode => Normal
  }

  /** `previous_mode`: one step backward around the cycle. */
  function PreviousMode(m: InputMode): (r: InputMode)
    ensures Index(r) == (Index(m) + |Modes| - 1) % |Modes|
    ensures r != m
  {
    match m
    case Normal => EditingCode
    case EditingSearch => Normal
    case EditingTitle => EditingSearch
    case EditingLanguage => EditingTitle
    case EditingCode => EditingLanguage
  }

  /** Two modes at the same table position are the same mode. */
  lemma {:induction false} IndexInjective(a: InputMode, b: InputMode)
    requires Index(a) == Index(b)
    ensures a == b
  {
    assert Modes[Index(a)] == a;
  }

  /** The successor of the mode at table position `i` is the mode at position `i + 1`, wrapping. */
  lemma NextFollowsTable()
    ensures forall i :: 0 <= i < |Modes| ==> NextMode(Modes[i]) == Modes[(i + 1) % |Modes|]
  {
  }

  /** `previous_mode` undoes `next_mode`, and `next_mode` undoes `previous_mode`. */
  lemma {:induction false} NextPreviousInverse(m: InputMode)
    ensures PreviousMode(NextMode(m)) == m
    ensures NextMode(PreviousMode(m)) == m
  {
    IndexInjective(PreviousMode(NextMode(m)), m);
    IndexInjective(NextMode(PreviousMode(m)), m);
  }

  /** `n` successive applications of `next_mode`. */
  function Advance(m: InputMode, n: nat): InputMode
  {
    if n == 0 then m else NextMode(Advance(m, n - 1))
  }

  /** Advancing `n` times moves `n` places along the table, modulo its length. */
  lemma {:induction false} AdvanceIndex(m: InputMode, n: nat)
    ensures Index(Advance(m, n)) == (Index(m) + n) % |Modes|
  {
    if n > 0 {
      AdvanceIndex(m, n - 1);
      WrapSucc(Index(m) + n - 1);
    }
  }

  /** Stepping past a position reduced modulo the table length is stepping before reducing. */
  lemma {:induction false} WrapSucc(a: nat)
    ensures (a % |Modes| + 1) % |Modes| == (a + 1) % |Modes|
  {
    var q := a / 5;
    assert a == 5 * q + a % 5;
    if a % 5 == 4 {
      assert a + 1 == 5 * (q + 1);
    } else {
      assert a + 1 == 5 * q + (a % 5 + 1);
    }
  }

  /** The cycle has period exactly five: `n` steps return to the start if and only if five divides `n`. */
  lemma {:induction false} AdvanceReturns(m: InputMode, n: nat)
    ensures Advance(m, n) == m <==> n % |Modes| == 0
  {
    AdvanceIndex(m, n);
    if n % |Modes| == 0 {
      IndexInjective(Advance(m, n), m);
    }
  }

  /** Five steps of `next_mode` return to the start, and one to four never do. */
  lemma {:induction false} CyclePeriod(m: InputMode)
    ensures Advance(m, 5) == m
    ensures forall n :: 1 <= n <= 4 ==> Advance(m, n) != m
  {
    AdvanceReturns(m, 5);
    forall n | 1 <= n <= 4
      ensures Advance(m, n) != m
    {
      AdvanceReturns(m, n);
    }
  }

  /** The facts checked by the unit tests of `src/key.rs`. */
  lemma UnitTests()
    ensures NextMode(Normal) == EditingSearch
    ensures NextMode(EditingSearch) == EditingTitle
    ensures NextMode(EditingCode) == Normal
    ensures PreviousMode(EditingSearch) == Normal
    ensures PreviousMode(EditingTitle) == EditingSearch
    ensures PreviousMode(Normal) == EditingCode
  {
  }
}
