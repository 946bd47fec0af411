/** Terminal user ids: their decimal text and the search for the next free one. */
module TerminalIds {

  const PRODUCTION_NAMESPACE_START: nat := 1001
  const LEGACY_TEST_IDS: set<string> := {"1", "2"}

  /** The text of a number. */
  function Decimal(n: nat): (s: string) {
    if n < 10 then [('0' as int + n) as char] else Decimal(n / 10) + [('0' as int + n % 10) as char]
  }

  /** Reads decimal text back; any other text gets some number. */
  function Value(s: string): int {
    if s == "" then 0 else Value(s[..|s| - 1]) * 10 + (s[|s| - 1] as int - '0' as int)
  }

  lemma {:induction false} ValueOfDecimal(n: nat)
    ensures Value(Decimal(n)) == n
  {
    if n >= 10 {
      ValueOfDecimal(n / 10);
      assert Decimal(n)[..|Decimal(n)| - 1] == Decimal(n / 10);
    } else {
      assert Decimal(n)[..0] == "";
    }
  }

  /** Blocked ids the search may still meet from `from` on: what bounds the search. */
  function Ahead(blocked: set<string>, from: nat): set<string> {
    set s | s in blocked && Value(s) >= from
  }

  lemma AheadShrinks(blocked: set<string>, from: nat)
    requires Decimal(from) in blocked
    ensures |Ahead(blocked, from + 1)| < |Ahead(blocked, from)|
  {
    ValueOfDecimal(from);
    var rest := Ahead(blocked, from + 1);
    assert rest <= Ahead(blocked, from) - {Decimal(from)};
    SubsetSize(rest, Ahead(blocked, from) - {Decimal(from)});
  }

  lemma {:induction false} SubsetSize<T>(a: set<T>, b: set<T>)
    requires a <= b
    ensures |a| <= |b|
  {
    if a != {} {
      var x :| x in a;
      SubsetSize(a - {x}, b - {x});
    }
  }

  /** The least number at or after `from` whose text is not blocked. */
  function NextFree(blocked: set<string>, from: nat): (n: nat)
    ensures n >= from && Decimal(n) !in blocked
    ensures forall k | from <= k < n :: Decimal(k) in blocked
    decreases |Ahead(blocked, from)|
  {
    if Decimal(from) in blocked then
      AheadShrinks(blocked, from);
      NextFree(blocked, from + 1)
    else from
  }

  function BlockedIds(used: set<string>, roster: set<string>): set<string> {
    used + LEGACY_TEST_IDS + roster
  }

  function NextAvailableId(used: set<string>, roster: set<string>): (id: string)
    ensures id !in used && id !in roster && id !in LEGACY_TEST_IDS
  {
    Decimal(NextFree(BlockedIds(used, roster), PRODUCTION_NAMESPACE_START))
  }

  /** The allocator's search loop. It ends because every blocked candidate it passes is another member of a
      finite set, which needs that two numbers never share a text. */
  method FindNextAvailableId(used: set<string>, roster: set<string>) returns (id: string)
    ensures id == NextAvailableId(used, roster)
    ensures exists n: nat ::
      && n >= PRODUCTION_NAMESPACE_START && id == Decimal(n) && id !in BlockedIds(used, roster)
      && forall k: nat | PRODUCTION_NAMESPACE_START <= k < n :: Decimal(k) in BlockedIds(used, roster)
  {
    var blocked := used;
    blocked := blocked + LEGACY_TEST_IDS;
    if roster != {} {
      blocked := blocked + roster;
    }
    assert blocked == BlockedIds(used, roster);
    var candidate := PRODUCTION_NAMESPACE_START;
    while Decimal(candidate) in blocked
      invariant candidate >= PRODUCTION_NAMESPACE_START
      invariant forall k: nat | PRODUCTION_NAMESPACE_START <= k < candidate :: Decimal(k) in blocked
      decreases |Ahead(blocked, candidate)|
    {
      AheadShrinks(blocked, candidate);
      candidate := candidate + 1;
    }
    assert candidate == NextFree(blocked, PRODUCTION_NAMESPACE_START);
    id := Decimal(candidate);
  }
}
