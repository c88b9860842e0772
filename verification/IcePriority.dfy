/** Candidate::GetPriority: the 32-bit ICE priority of section 4.1.2.1 of RFC 5245.  Shifts and
    conversions wrap at 32 bits as in the code; `|` is defined bit by bit. */
module IcePriority {

  const U32 := 0x1_0000_0000

  /** kMaxTurnServers. */
  const MAX_TURN_SERVERS := 32

  // ---------------------------------------------------------------- 32-bit operations

  function Wrap(x: int): (r: nat)
    ensures r < U32
  {
    x % U32
  }

  function Pow2(n: nat): (r: nat)
    ensures r >= 1
  {
    if n == 0 then 1 else 2 * Pow2(n - 1)
  }

  function Or(a: nat, b: nat): nat {
    if a == 0 && b == 0 then 0
    else (if a % 2 == 1 || b % 2 == 1 then 1 else 0) + 2 * Or(a / 2, b / 2)
  }

  lemma {:induction false} OrZero(a: nat)
    ensures Or(a, 0) == a
  {
    if a != 0 { OrZero(a / 2); }
  }

  lemma {:induction false} OrBound(a: nat, b: nat, n: nat)
    requires a < Pow2(n) && b < Pow2(n)
    ensures Or(a, b) < Pow2(n)
  {
    if n > 0 { OrBound(a / 2, b / 2, n - 1); }
  }

  /** Or-ing a value of `n` bits into `n` clear bits is addition. */
  lemma {:induction false} OrDisjoint(a: nat, b: nat, n: nat)
    requires b < Pow2(n)
    ensures Or(a * Pow2(n), b) == a * Pow2(n) + b
  {
    if n == 0 {
      OrZero(a);
    } else {
      var high := a * Pow2(n - 1);
      assert a * Pow2(n) == 2 * high;
      OrDisjoint(a, b / 2, n - 1);
    }
  }

  lemma Powers()
    ensures Pow2(8) == 0x100 && Pow2(16) == 0x1_0000 && Pow2(24) == 0x100_0000 && Pow2(32) == U32
  {
    assert Pow2(8) == 0x100;
    assert Pow2(12) == 0x1000;
    assert Pow2(16) == 0x1_0000;
    assert Pow2(20) == 0x10_0000;
    assert Pow2(24) == 0x100_0000;
    assert Pow2(28) == 0x1000_0000;
  }

  // ---------------------------------------------------------------- the priority

  /** What GetPriority reads of a candidate: its component, the precedence of its address, and
      whether its relay protocol is set. */
  datatype Candidate = Candidate(component: int, addressPrecedence: nat, relayed: bool)

  function LocalPreference(c: Candidate, adapter: nat, relay: nat, adjust: bool): nat {
    var base := Or(adapter * 0x100, c.addressPrecedence) + relay;
    if adjust && !c.relayed then base + MAX_TURN_SERVERS else base
  }

  function Combined(typePreference: nat, localPreference: nat, component: int): nat {
    Or(Or(Wrap(typePreference * 0x100_0000), Wrap(localPreference * 0x100)), Wrap(256 - component))
  }

  function GetPriority(c: Candidate, typePreference: nat, adapter: nat, relay: nat, adjust: bool): nat {
    Combined(typePreference, LocalPreference(c, adapter, relay, adjust), c.component)
  }

  predicate Fits(typePreference: nat, localPreference: nat, component: int) {
    typePreference < 0x100 && localPreference < 0x1_0000 && 1 <= component <= 0x100
  }

  lemma OrIntoByte(a: nat, b: nat)
    requires b < 0x100
    ensures Or(a * 0x100, b) == a * 0x100 + b
  {
    Powers();
    OrDisjoint(a, b, 8);
  }

  lemma OrInto24Bits(a: nat, b: nat)
    requires b < 0x100_0000
    ensures Or(a * 0x100_0000, b) == a * 0x100_0000 + b
  {
    Powers();
    OrDisjoint(a, b, 24);
  }

  lemma SmallStays(x: int)
    requires 0 <= x < U32
    ensures Wrap(x) == x
  {
  }

  /** Fields that fit their widths do not overlap and the result is the formula of the RFC. */
  lemma FormulaOfRfc5245(t: nat, l: nat, k: int)
    requires Fits(t, l, k)
    ensures Combined(t, l, k) == 0x100_0000 * t + 0x100 * l + (256 - k) < U32
  {
    SmallStays(t * 0x100_0000);
    SmallStays(l * 0x100);
    SmallStays(256 - k);
    OrInto24Bits(t, l * 0x100);
    OrIntoByte(t * 0x1_0000 + l, 256 - k);
  }

  /** The fields of a number written in digits of 8, 16 and 8 bits. */
  lemma Digits(t: nat, l: nat, c: nat)
    requires l < 0x1_0000 && c < 0x100
    ensures var p := 0x100_0000 * t + 0x100 * l + c;
            && p / 0x100_0000 == t && p % 0x100_0000 == 0x100 * l + c
            && p / 0x100 % 0x1_0000 == l && p % 0x100 == c
  {
    var p := 0x100_0000 * t + 0x100 * l + c;
    assert p == 0x100_0000 * t + (0x100 * l + c);
    assert p == 0x100 * (0x1_0000 * t + l) + c;
    assert p / 0x100 == 0x1_0000 * t + l;
  }

  lemma CombinedIs32Bits(t: nat, l: nat, k: int)
    ensures Combined(t, l, k) < U32
  {
    Powers();
    OrBound(Wrap(t * 0x100_0000), Wrap(l * 0x100), 32);
    OrBound(Or(Wrap(t * 0x100_0000), Wrap(l * 0x100)), Wrap(256 - k), 32);
  }

  /** The three fields can be read back exactly when each fits its width. */
  lemma FieldsRecoverable(t: nat, l: nat, k: int)
    ensures var p := Combined(t, l, k);
            p / 0x100_0000 == t && p / 0x100 % 0x1_0000 == l && 256 - p % 0x100 == k <==> Fits(t, l, k)
  {
    CombinedIs32Bits(t, l, k);
    if Fits(t, l, k) {
      FormulaOfRfc5245(t, l, k);
      Digits(t, l, 256 - k);
    }
  }

  /** Priorities order candidates by type preference, then local preference, then lower component. */
  lemma OrderIsLexicographic(t: nat, l: nat, k: int, t': nat, l': nat, k': int)
    requires Fits(t, l, k) && Fits(t', l', k')
    ensures Combined(t, l, k) < Combined(t', l', k') <==>
              t < t' || (t == t' && (l < l' || (l == l' && k > k')))
  {
    FormulaOfRfc5245(t, l, k);
    FormulaOfRfc5245(t', l', k');
  }

  // ---------------------------------------------------------------- from a candidate

  /** The precedences of IPAddressPrecedence, the components of the RFC, adapter preferences up to
      127, and the debug check that the local preference plus the adjustment has 16 bits. */
  predicate InBounds(c: Candidate, adapter: nat, relay: nat) {
    && 1 <= c.component <= 0x100 && c.addressPrecedence <= 60 && adapter <= 127
    && Or(adapter * 0x100, c.addressPrecedence) + relay + MAX_TURN_SERVERS < 0x1_0000
  }

  /** The local preference is adapter, then address precedence, plus relay preference and
      adjustment; within bounds every field of the priority fits. */
  lemma LocalPreferenceSum(c: Candidate, t: nat, adapter: nat, relay: nat, adjust: bool)
    requires InBounds(c, adapter, relay) && t < 0x100
    ensures LocalPreference(c, adapter, relay, adjust) ==
              0x100 * adapter + c.addressPrecedence + relay + if adjust && !c.relayed then MAX_TURN_SERVERS else 0
    ensures Fits(t, LocalPreference(c, adapter, relay, adjust), c.component)
  {
    OrIntoByte(adapter, c.addressPrecedence);
  }

  /** The priority of a candidate, in full. */
  lemma PriorityIs(c: Candidate, t: nat, adapter: nat, relay: nat, adjust: bool)
    requires InBounds(c, adapter, relay) && t < 0x100
    ensures GetPriority(c, t, adapter, relay, adjust) ==
              0x100_0000 * t
              + 0x100 * (0x100 * adapter + c.addressPrecedence + relay + (if adjust && !c.relayed then 32 else 0))
              + (256 - c.component)
    ensures GetPriority(c, t, adapter, relay, adjust) < U32
  {
    LocalPreferenceSum(c, t, adapter, relay, adjust);
    FormulaOfRfc5245(t, LocalPreference(c, adapter, relay, adjust), c.component);
  }

  /** A higher type preference wins whatever else differs; at equal type and equal local preference the
      lower component does. */
  lemma TypeDecides(c: Candidate, d: Candidate, t: nat, u: nat,
                    adapter: nat, adapter': nat, relay: nat, relay': nat, adjust: bool, adjust': bool)
    requires InBounds(c, adapter, relay) && InBounds(d, adapter', relay') && t < 0x100 && u < 0x100
    ensures var l := 0x100 * adapter + c.addressPrecedence + relay + if adjust && !c.relayed then 32 else 0;
            var m := 0x100 * adapter' + d.addressPrecedence + relay' + if adjust' && !d.relayed then 32 else 0;
            GetPriority(c, t, adapter, relay, adjust) < GetPriority(d, u, adapter', relay', adjust') <==>
              t < u || (t == u && (l < m || (l == m && c.component > d.component)))
  {
    LocalPreferenceSum(c, t, adapter, relay, adjust);
    LocalPreferenceSum(d, u, adapter', relay', adjust');
    OrderIsLexicographic(t, LocalPreference(c, adapter, relay, adjust), c.component,
                         u, LocalPreference(d, adapter', relay', adjust'), d.component);
  }

  /** For equal type the adapter preference outweighs address precedence, relay preference up to
      kMaxTurnServers and adjustment together. */
  lemma AdapterDecides(c: Candidate, d: Candidate, t: nat,
                       adapter: nat, adapter': nat, relay: nat, relay': nat, adjust: bool)
    requires InBounds(c, adapter, relay) && InBounds(d, adapter', relay') && t < 0x100
    requires relay <= MAX_TURN_SERVERS && relay' <= MAX_TURN_SERVERS && adapter < adapter'
    ensures GetPriority(c, t, adapter, relay, adjust) < GetPriority(d, t, adapter', relay', adjust)
  {
    LocalPreferenceSum(c, t, adapter, relay, adjust);
    LocalPreferenceSum(d, t, adapter', relay', adjust);
    OrderIsLexicographic(t, LocalPreference(c, adapter, relay, adjust), c.component,
                         t, LocalPreference(d, adapter', relay', adjust), d.component);
  }

  // ---------------------------------------------------------------- the STUN PRIORITY attribute

  /** Section 7.1.2.1 of RFC 5245: the peer-reflexive type preference over the low 24 bits. */
  function StunPriority(peerReflexive: nat, priority: nat): nat {
    0x100_0000 * peerReflexive + priority % 0x100_0000
  }

  lemma LowBits(t: nat, l: nat, k: int)
    requires Fits(t, l, k)
    ensures Combined(t, l, k) % 0x100_0000 == 0x100 * l + (256 - k)
  {
    FormulaOfRfc5245(t, l, k);
    Digits(t, l, 256 - k);
  }

  /** A relay candidate outranks a server-reflexive one of equal adapter, address precedence and
      component in the STUN attribute exactly when its relay preference exceeds the other's by more
      than the adjustment; so never with adjustment on and a preference of at most
      kMaxTurnServers. */
  lemma RelayOutranksExactly(relayed: Candidate, reflexive: Candidate, t: nat, u: nat, peerReflexive: nat,
                             adapter: nat, relay: nat, other: nat, adjust: bool)
    requires relayed.relayed && !reflexive.relayed
    requires relayed.component == reflexive.component && relayed.addressPrecedence == reflexive.addressPrecedence
    requires InBounds(relayed, adapter, relay) && InBounds(reflexive, adapter, other)
    requires t < 0x100 && u < 0x100
    ensures StunPriority(peerReflexive, GetPriority(relayed, t, adapter, relay, adjust)) >
            StunPriority(peerReflexive, GetPriority(reflexive, u, adapter, other, adjust)) <==>
              relay > other + if adjust then MAX_TURN_SERVERS else 0
  {
    LocalPreferenceSum(relayed, t, adapter, relay, adjust);
    LocalPreferenceSum(reflexive, u, adapter, other, adjust);
    LowBits(t, LocalPreference(relayed, adapter, relay, adjust), relayed.component);
    LowBits(u, LocalPreference(reflexive, adapter, other, adjust), reflexive.component);
  }
}
