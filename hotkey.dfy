/** Hotkey matching on macOS virtual key codes: which modifier groups
    (option, command, shift, control) are held, whether a hotkey's modifier
    list is held exactly, the first-match dispatch of `hotkeysSubscription`,
    and the classification of modifier key codes. Which physical keys are down
    (`CGEventSource.keyState`) is an input: the set of key codes held. */
module Hotkeys {
  import opened Wrappers

  /** `CGKeyCode`, an unsigned 16-bit integer. */
  newtype KeyCode = x: int | 0 <= x < 0x1_0000

  const CommandKey: KeyCode := 0x37
  const ShiftKey: KeyCode := 0x38
  const CapsLockKey: KeyCode := 0x39
  const OptionKey: KeyCode := 0x3A
  const ControlKey: KeyCode := 0x3B
  const RightCommandKey: KeyCode := 0x36
  const RightShiftKey: KeyCode := 0x3C
  const RightOptionKey: KeyCode := 0x3D
  const RightControlKey: KeyCode := 0x3E
  const FunctionKey: KeyCode := 0x3F

  // ---------------------------------------------------------------------
  // Key-code classification

  /** `isModifier`: the code lies in `kVK_RightCommand...kVK_Function`,
      which are exactly the ten modifier keys. */
  predicate IsModifier(k: KeyCode)
    ensures IsModifier(k) <==> k in {CommandKey, ShiftKey, CapsLockKey, OptionKey, ControlKey,
                                     RightCommandKey, RightShiftKey, RightOptionKey, RightControlKey, FunctionKey}
  {
    RightCommandKey <= k <= FunctionKey
  }

  /** `baseModifier`: left-hand modifiers (and caps lock and function) map to
      themselves, the four right-hand ones to their left counterpart, any
      other code to nil. */
  function BaseModifier(k: KeyCode): (r: Option<KeyCode>)
    ensures r.Some? ==> r.value in {CommandKey, ShiftKey, CapsLockKey, OptionKey, ControlKey, FunctionKey}
    ensures r.Some? && r.value != k ==> k in {RightCommandKey, RightShiftKey, RightOptionKey, RightControlKey}
  {
    if (CommandKey <= k <= ControlKey) || k == FunctionKey then Some(k)
    else if k == RightShiftKey then Some(ShiftKey)
    else if k == RightCommandKey then Some(CommandKey)
    else if k == RightOptionKey then Some(OptionKey)
    else if k == RightControlKey then Some(ControlKey)
    else None
  }

  /** Exactly the modifier codes have a base modifier. */
  lemma BaseModifierDefinedIffModifier(k: KeyCode)
    ensures BaseModifier(k).Some? <==> IsModifier(k)
  {
  }

  /** A base modifier is itself a modifier, it is its own base and it is one
      of the left-hand codes, caps lock or function. */
  lemma BaseModifierIdempotent(k: KeyCode)
    requires BaseModifier(k).Some?
    ensures IsModifier(BaseModifier(k).value)
    ensures BaseModifier(BaseModifier(k).value) == BaseModifier(k)
    ensures BaseModifier(k).value in {CommandKey, ShiftKey, CapsLockKey, OptionKey, ControlKey, FunctionKey}
  {
  }

  // ---------------------------------------------------------------------
  // Modifier groups

  datatype KeyBase = OptionBase | CommandBase | ShiftBase | ControlBase

  /** `KeyBase.allCases`, in declaration order. */
  const AllKeyBases: seq<KeyBase> := [OptionBase, CommandBase, ShiftBase, ControlBase]

  lemma AllKeyBasesComplete(b: KeyBase)
    ensures b in AllKeyBases
  {
  }

  function LeftCode(b: KeyBase): KeyCode {
    match b
    case OptionBase => OptionKey
    case CommandBase => CommandKey
    case ShiftBase => ShiftKey
    case ControlBase => ControlKey
  }

  function RightCode(b: KeyBase): KeyCode {
    match b
    case OptionBase => RightOptionKey
    case CommandBase => RightCommandKey
    case ShiftBase => RightShiftKey
    case ControlBase => RightControlKey
  }

  /** `KeyBase.isPressed`: the left or the right key of the group is down,
      so some key that is down has the group's left key as its base. */
  predicate IsPressed(b: KeyBase, down: set<KeyCode>)
    ensures IsPressed(b, down) ==> exists k :: k in down && BaseModifier(k) == Some(LeftCode(b))
  {
    assert BaseModifier(LeftCode(b)) == Some(LeftCode(b)) && BaseModifier(RightCode(b)) == Some(LeftCode(b));
    LeftCode(b) in down || RightCode(b) in down
  }

  /** A group is down exactly when some key that is down has the group's left
      key as its base modifier. */
  lemma IsPressedViaBaseModifier(b: KeyBase, down: set<KeyCode>)
    ensures IsPressed(b, down) <==> exists k :: k in down && BaseModifier(k) == Some(LeftCode(b))
  {
    if IsPressed(b, down) {
      var k := if LeftCode(b) in down then LeftCode(b) else RightCode(b);
      assert k in down && BaseModifier(k) == Some(LeftCode(b));
    }
  }

  /** The groups that are down. */
  function PressedGroups(down: set<KeyCode>): set<KeyBase> {
    set b | b in AllKeyBases && IsPressed(b, down)
  }

  /** The groups a hotkey lists, ignoring order and repetition. */
  function Listed(keyBase: seq<KeyBase>): set<KeyBase> {
    set b | b in keyBase
  }

  /** `s.filter { keyBase.contains($0) == listed }`, keeping the order. */
  function FilterListed(s: seq<KeyBase>, keyBase: seq<KeyBase>, listed: bool): (r: seq<KeyBase>)
    ensures forall b :: b in r <==> b in s && (b in keyBase) == listed
  {
    if s == [] then []
    else (if (s[0] in keyBase) == listed then [s[0]] else []) + FilterListed(s[1..], keyBase, listed)
  }

  /** The two sets agree exactly when each group is down iff it is listed. */
  lemma PressedGroupsEqualListed(keyBase: seq<KeyBase>, down: set<KeyCode>)
    ensures PressedGroups(down) == Listed(keyBase) <==> forall b :: b in keyBase <==> IsPressed(b, down)
  {
    forall b ensures b in AllKeyBases {
      AllKeyBasesComplete(b);
    }
    if PressedGroups(down) == Listed(keyBase) {
      forall b ensures b in keyBase <==> IsPressed(b, down) {
        assert b in keyBase <==> b in Listed(keyBase);
        assert IsPressed(b, down) <==> b in PressedGroups(down);
      }
    }
  }

  // ---------------------------------------------------------------------
  // Hotkeys

  /** A hotkey: its modifier list and its key; the action is identified by
      the hotkey's position in the list it is registered with. */
  datatype Hotkey = Hotkey(keyBase: seq<KeyBase>, key: KeyCode)

  /** `keyBasePressed`: every listed group is down and no other group is. */
  method KeyBasePressed(h: Hotkey, down: set<KeyCode>) returns (pressed: bool)
    ensures pressed <==> PressedGroups(down) == Listed(h.keyBase)
  {
    PressedGroupsEqualListed(h.keyBase, down);
    var mustBePressed := FilterListed(AllKeyBases, h.keyBase, true);
    var mustBeNotPressed := FilterListed(AllKeyBases, h.keyBase, false);
    var i := 0;
    while i < |mustBePressed|
      invariant 0 <= i <= |mustBePressed|
      invariant forall j :: 0 <= j < i ==> IsPressed(mustBePressed[j], down)
    {
      if !IsPressed(mustBePressed[i], down) {
        assert mustBePressed[i] in h.keyBase;
        return false;
      }
      i := i + 1;
    }
    i := 0;
    while i < |mustBeNotPressed|
      invariant 0 <= i <= |mustBeNotPressed|
      invariant forall j :: 0 <= j < i ==> !IsPressed(mustBeNotPressed[j], down)
    {
      if IsPressed(mustBeNotPressed[i], down) {
        assert mustBeNotPressed[i] !in h.keyBase;
        return false;
      }
      i := i + 1;
    }
    forall b ensures b in h.keyBase <==> IsPressed(b, down) {
      AllKeyBasesComplete(b);
      if b in h.keyBase {
        assert b in mustBePressed;
      } else {
        assert b in mustBeNotPressed;
      }
    }
    return true;
  }

  /** A hotkey fires when its modifier groups are down exactly and its key
      is down. */
  predicate Matches(h: Hotkey, down: set<KeyCode>)
    ensures Matches(h, down) ==> h.key in down && forall b :: b in h.keyBase ==> IsPressed(b, down)
  {
    assert forall b :: b in h.keyBase ==> b in Listed(h.keyBase);
    PressedGroups(down) == Listed(h.keyBase) && h.key in down
  }

  /** `hotkeysSubscription`: the first hotkey in the list that matches runs
      its action (its index is returned in `fired`) and the event counts as
      handled; when none matches, nothing runs and the event is not
      handled. */
  method HotkeysSubscription(combinations: seq<Hotkey>, down: set<KeyCode>)
    returns (handled: bool, fired: Option<nat>)
    ensures handled <==> fired.Some?
    ensures fired.Some? ==>
      && fired.value < |combinations|
      && Matches(combinations[fired.value], down)
      && forall j :: 0 <= j < fired.value ==> !Matches(combinations[j], down)
    ensures fired.None? ==> forall j :: 0 <= j < |combinations| ==> !Matches(combinations[j], down)
  {
    var i := 0;
    while i < |combinations|
      invariant 0 <= i <= |combinations|
      invariant forall j :: 0 <= j < i ==> !Matches(combinations[j], down)
    {
      var comb := combinations[i];
      var basePressedCorrectly := KeyBasePressed(comb, down);
      if basePressedCorrectly && comb.key in down {
        return true, Some(i);
      }
      i := i + 1;
    }
    return false, None;
  }

  /** The order and repetition of a hotkey's modifier list do not matter. */
  lemma MatchesIgnoresListOrder(h: Hotkey, g: Hotkey, down: set<KeyCode>)
    requires h.key == g.key && forall b :: b in h.keyBase <==> b in g.keyBase
    ensures Matches(h, down) <==> Matches(g, down)
  {
    assert Listed(h.keyBase) == Listed(g.keyBase);
  }
}
