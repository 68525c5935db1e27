/** The keypad (src/keypad/mod.rs). Host keys occupy sixteen slots laid out
    like the original hexadecimal keypad (rows 1 2 3 4 / Q W E R / A S D F /
    Z X C V); the key map translates between slots and Chip-8 key numbers.
    The keypad state is indexed by slot. */
module Keypad {
  import opened Bits
  import opened Results

  /** The window library's key codes: the sixteen that are mapped, and every other key. */
  datatype Key = Key1 | Key2 | Key3 | Key4 | Q | W | E | R | A | S | D | F | Z | X | C | V | Other

  /** Number of keys and of slots. */
  const NUM: nat := 16

  /** Chip-8 key number of each slot. */
  const CPU_INDICES: seq<u8> := [
    0x1, 0x2, 0x3, 0xC,
    0x4, 0x5, 0x6, 0xD,
    0x7, 0x8, 0x9, 0xE,
    0xA, 0x0, 0xB, 0xF
  ]

  /** Slot of each Chip-8 key number. */
  const KEY_INDICES: seq<nat> := [
    0xD, 0x0, 0x1, 0x2,
    0x4, 0x5, 0x6, 0x8,
    0x9, 0xA, 0xC, 0xE,
    0x3, 0x7, 0xB, 0xF
  ]

  /** The Chip-8 key number of slot `keyIndex`. */
  function CpuIndex(keyIndex: nat): (c: u8)
    requires keyIndex < NUM
    ensures c < NUM
  {
    CPU_INDICES[keyIndex]
  }

  /** The slot of Chip-8 key number `cpuIndex`. */
  function KeyIndex(cpuIndex: nat): (k: nat)
    requires cpuIndex < NUM
    ensures k < NUM
  {
    KEY_INDICES[cpuIndex]
  }

  /** The two tables are inverse permutations of 0..15. */
  lemma KeymapInverse()
    ensures forall k :: 0 <= k < NUM ==> KeyIndex(CpuIndex(k)) == k
    ensures forall c :: 0 <= c < NUM ==> CpuIndex(KeyIndex(c)) == c
  {
    forall k | 0 <= k < NUM
      ensures KeyIndex(CpuIndex(k)) == k
    {
      KeyIndexOfCpuIndex(k);
    }
    forall c | 0 <= c < NUM
      ensures CpuIndex(KeyIndex(c)) == c
    {
      CpuIndexOfKeyIndex(c);
    }
  }

  lemma KeyIndexOfCpuIndex(k: nat)
    requires k < NUM
    ensures KeyIndex(CpuIndex(k)) == k
  {
    if k < 8 {
      if k < 4 { assert k == 0 || k == 1 || k == 2 || k == 3; }
      else { assert k == 4 || k == 5 || k == 6 || k == 7; }
    } else {
      if k < 12 { assert k == 8 || k == 9 || k == 10 || k == 11; }
      else { assert k == 12 || k == 13 || k == 14 || k == 15; }
    }
  }

  lemma CpuIndexOfKeyIndex(c: nat)
    requires c < NUM
    ensures CpuIndex(KeyIndex(c)) == c
  {
    if c < 8 {
      if c < 4 { assert c == 0 || c == 1 || c == 2 || c == 3; }
      else { assert c == 4 || c == 5 || c == 6 || c == 7; }
    } else {
      if c < 12 { assert c == 8 || c == 9 || c == 10 || c == 11; }
      else { assert c == 12 || c == 13 || c == 14 || c == 15; }
    }
  }

  /** The slot of a host key: `None` exactly for the unmapped keys. */
  function FromKey(key: Key): (r: Option<nat>)
    ensures r.None? <==> key == Other
    ensures r.Some? ==> r.value < NUM
  {
    var slot: nat := match key
      case Key1 => 0
      case Key2 => 1
      case Key3 => 2
      case Key4 => 3
      case Q => 4
      case W => 5
      case E => 6
      case R => 7
      case A => 8
      case S => 9
      case D => 10
      case F => 11
      case Z => 12
      case X => 13
      case C => 14
      case V => 15
      case Other => 16;
    if slot == 16 then None else Some(slot)
  }

  /** The host key that sits in slot `i`. */
  function KeyAt(i: nat): (key: Key)
    requires i < NUM
    ensures FromKey(key) == Some(i)
  {
    [Key1, Key2, Key3, Key4, Q, W, E, R, A, S, D, F, Z, X, C, V][i]
  }

  /** Distinct mapped keys occupy distinct slots, and every slot is occupied. */
  lemma FromKeyIsBijective(k1: Key, k2: Key, i: nat)
    requires i < NUM
    ensures FromKey(k1).Some? && FromKey(k1) == FromKey(k2) ==> k1 == k2
    ensures exists key :: FromKey(key) == Some(i)
  {
    var _ := KeyAt(i);
  }

  type KeyState = s: seq<bool> | |s| == NUM witness seq(NUM, _ => false)

  datatype Keypad = Keypad(state: KeyState)

  /** A pressed slot is one whose state is set. */
  ghost predicate SlotPressed(kp: Keypad, i: int) {
    0 <= i < NUM && kp.state[i]
  }

  /** Whether Chip-8 key `cpuIndex` is held: some pressed slot maps to it. */
  function IsKeyPressed(kp: Keypad, cpuIndex: nat): (pressed: bool)
    requires cpuIndex < NUM
    ensures pressed <==> exists i :: SlotPressed(kp, i) && CpuIndex(i) == cpuIndex
  {
    var k := KeyIndex(cpuIndex);
    CpuIndexOfKeyIndex(cpuIndex);
    assert forall i :: SlotPressed(kp, i) && CpuIndex(i) == cpuIndex ==> i == k by {
      KeymapInverse();
    }
    kp.state[k]
  }

  /** The first pressed slot at or after `from`. */
  function FirstPressedFrom(kp: Keypad, from: nat): (r: Option<nat>)
    requires from <= NUM
    ensures r.None? <==> forall i :: from <= i < NUM ==> !kp.state[i]
    ensures r.Some? ==> from <= r.value < NUM && kp.state[r.value]
                        && forall j :: from <= j < r.value ==> !kp.state[j]
    decreases NUM - from
  {
    if from == NUM then None
    else if kp.state[from] then Some(from)
    else FirstPressedFrom(kp, from + 1)
  }

  /** Some key when any is held: the Chip-8 number of the lowest pressed slot,
      which is a key `IsKeyPressed` reports; `None` exactly when nothing is held. */
  function AnyKey(kp: Keypad): (r: Option<u8>)
    ensures r.None? <==> forall i :: 0 <= i < NUM ==> !SlotPressed(kp, i)
    ensures r.Some? ==> exists i :: SlotPressed(kp, i) && r.value == CpuIndex(i)
                                    && forall j :: 0 <= j < i ==> !SlotPressed(kp, j)
    ensures r.Some? ==> r.value < NUM && IsKeyPressed(kp, r.value)
  {
    match FirstPressedFrom(kp, 0)
    case None => None
    case Some(i) =>
      assert SlotPressed(kp, i);
      Some(CpuIndex(i))
  }

  /** Marks the slot of every mapped key of `keys` as pressed, leaving the other slots alone. */
  function PressAll(state: KeyState, keys: seq<Key>): (s: KeyState)
    ensures forall i :: 0 <= i < NUM ==>
              (s[i] <==> state[i] || exists j :: 0 <= j < |keys| && FromKey(keys[j]) == Some(i))
    decreases |keys|
  {
    if |keys| == 0 then state
    else
      var state' := match FromKey(keys[0])
        case Some(i) => state[i := true]
        case None => state;
      var s := PressAll(state', keys[1..]);
      assert forall j :: 1 <= j < |keys| ==> keys[j] == keys[1..][j - 1];
      s
  }

  /** Replaces the whole state from the keys the window reports held: a slot
      is pressed exactly when one of `keys` maps to it, whatever was pressed before. */
  function UpdateState(kp: Keypad, keys: seq<Key>): (kp': Keypad)
    ensures forall i :: 0 <= i < NUM ==>
              (kp'.state[i] <==> exists j :: 0 <= j < |keys| && FromKey(keys[j]) == Some(i))
  {
    Keypad(PressAll(seq(NUM, _ => false), keys))
  }

  /** The previous state has no influence on an update. */
  lemma UpdateStateForgetsPrevious(kp1: Keypad, kp2: Keypad, keys: seq<Key>)
    ensures UpdateState(kp1, keys) == UpdateState(kp2, keys)
  {
    var a, b := UpdateState(kp1, keys).state, UpdateState(kp2, keys).state;
    assert forall i :: 0 <= i < NUM ==> a[i] == b[i];
  }

  /** After an update, Chip-8 key `c` is held exactly when a reported host key sits in its slot. */
  lemma PressedAfterUpdate(kp: Keypad, keys: seq<Key>, c: nat)
    requires c < NUM
    ensures IsKeyPressed(UpdateState(kp, keys), c)
            <==> exists j :: 0 <= j < |keys| && FromKey(keys[j]) == Some(KeyIndex(c))
  {
    CpuIndexOfKeyIndex(c);
  }

  /** An update reports a key to `any_key` exactly when some reported key is mapped. */
  lemma AnyKeyAfterUpdate(kp: Keypad, keys: seq<Key>)
    ensures AnyKey(UpdateState(kp, keys)).Some? <==> exists j :: 0 <= j < |keys| && keys[j] != Other
  {
    var kp' := UpdateState(kp, keys);
    if exists j :: 0 <= j < |keys| && keys[j] != Other {
      var j :| 0 <= j < |keys| && keys[j] != Other;
      assert SlotPressed(kp', FromKey(keys[j]).value);
    }
  }

  /** A fresh keypad: no key is held, so `any_key` reports nothing. */
  function Default(): (kp: Keypad)
    ensures forall c :: 0 <= c < NUM ==> !IsKeyPressed(kp, c)
    ensures AnyKey(kp) == None
  {
    Keypad(seq(NUM, _ => false))
  }
}
