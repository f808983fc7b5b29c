/**
  Hotkey validation, parsing, registration and the show/hide toggle (`CheckHotKeyUtil`).

  A hotkey is written as modifier names and a final key joined by " + ", e.g. "Ctrl + Alt + J".
  The string is split with Java's `Pattern.split` semantics, modifiers are looked up in a
  four-entry map, and the result is five key codes handed to the native listener, which is
  modelled by the record of what it was asked to register. The listen loop is one pass over a
  trace of observations (key readings, bar visibility, showing mode, clock), one per iteration.
*/
module CheckHotKey {
  import opened Common

  /** The pattern `" \\+ "`. */
  const Separator: string := " + "

  /** `KeyEvent.VK_CONTROL`, `VK_ALT`, `VK_SHIFT`, and the Windows key. */
  const VkControl: int := 17
  const VkAlt: int := 18
  const VkShift: int := 16
  const VkWin: int := 0x5B

  /** The hotkey written into a fresh settings file. */
  const DefaultHotkey: string := "Ctrl + Alt + J"

  // ---------------------------------------------------------------------------
  // Splitting on " + "
  // ---------------------------------------------------------------------------

  /** A separator starts at index `i` of `s`. */
  predicate SepAt(s: string, i: int)
  {
    0 <= i && i + 3 <= |s| && s[i] == ' ' && s[i + 1] == '+' && s[i + 2] == ' '
  }

  /** The leftmost separator of `s` at or after `from`, as `Matcher.find` locates it. */
  function IndexOfSep(s: string, from: nat): (r: Option<nat>)
    requires from <= |s|
    ensures r.Some? ==> from <= r.value && SepAt(s, r.value) && forall j :: from <= j < r.value ==> !SepAt(s, j)
    ensures r.None? ==> forall j :: from <= j ==> !SepAt(s, j)
    decreases |s| - from
  {
    if from + 3 > |s| then None
    else if SepAt(s, from) then Some(from)
    else IndexOfSep(s, from + 1)
  }

  /** No separator occurs anywhere in `t`. */
  predicate NoSep(t: string)
  {
    forall j :: 0 <= j < |t| ==> !SepAt(t, j)
  }

  /** The text in front of the leftmost separator holds no separator. */
  lemma PrefixNoSep(s: string, i: nat)
    requires IndexOfSep(s, 0) == Some(i)
    ensures NoSep(s[..i])
  {
    forall j | 0 <= j < i ensures !SepAt(s[..i], j) {
      if j + 3 <= i {
        assert !SepAt(s, j);
        assert s[..i][j] == s[j] && s[..i][j + 1] == s[j + 1] && s[..i][j + 2] == s[j + 2];
      }
    }
  }

  /**
    The segments of `s` between successive leftmost, non-overlapping separators. The pattern has
    no anchors, so the next match after one at `i` is the leftmost match in `s[i + 3..]`.
  */
  function SplitSegments(s: string): (r: seq<string>)
    ensures |r| >= 1
    decreases |s|
  {
    match IndexOfSep(s, 0)
    case None => [s]
    case Some(i) => [s[..i]] + SplitSegments(s[i + 3..])
  }

  /** `split` with limit 0 drops trailing empty segments. */
  function DropTrailingEmpty(t: seq<string>): (r: seq<string>)
    ensures r <= t
    ensures r != [] ==> r[|r| - 1] != ""
    ensures forall i :: |r| <= i < |t| ==> t[i] == ""
    decreases |t|
  {
    if t == [] then []
    else if t[|t| - 1] == "" then DropTrailingEmpty(t[..|t| - 1])
    else t
  }

  /** `Pattern.compile(" \\+ ").split(s)`: the whole string when there is no separator. */
  function JavaSplit(s: string): (r: seq<string>)
    ensures IndexOfSep(s, 0).None? ==> r == [s]
    ensures IndexOfSep(s, 0).Some? && r != [] ==> r[|r| - 1] != ""
  {
    if IndexOfSep(s, 0).None? then [s] else DropTrailingEmpty(SplitSegments(s))
  }

  /** No segment between separators holds a separator. */
  lemma {:induction false} SegmentsNoSep(s: string)
    ensures forall k :: 0 <= k < |SplitSegments(s)| ==> NoSep(SplitSegments(s)[k])
    decreases |s|
  {
    match IndexOfSep(s, 0)
    case None =>
    case Some(i) =>
      PrefixNoSep(s, i);
      SegmentsNoSep(s[i + 3..]);
  }

  /** No token `split` returns holds a separator. */
  lemma SplitNoSep(s: string)
    ensures forall k :: 0 <= k < |JavaSplit(s)| ==> NoSep(JavaSplit(s)[k])
  {
    if IndexOfSep(s, 0).Some? {
      SegmentsNoSep(s);
    } else {
      assert JavaSplit(s) == [s];
    }
  }

  /** The tokens joined with " + ": how a hotkey string is written. */
  function Join(tokens: seq<string>): string
    requires |tokens| >= 1
    decreases |tokens|
  {
    if |tokens| == 1 then tokens[0] else tokens[0] + Separator + Join(tokens[1..])
  }

  /** A token that is a plain word: non-empty and without spaces. */
  predicate Word(t: string)
  {
    t != [] && forall i :: 0 <= i < |t| ==> t[i] != ' '
  }

  /** No separator starts inside a word at the front of a string. */
  lemma WordHasNoSep(w: string, q: string)
    requires Word(w)
    ensures forall j :: 0 <= j < |w| ==> !SepAt(w + q, j)
  {
    forall j | 0 <= j < |w| ensures !SepAt(w + q, j) {
      assert (w + q)[j] == w[j];
    }
  }

  /** In a word followed by " + ", the leftmost separator is the one right after the word. */
  lemma FirstSepAfterWord(w: string, rest: string)
    requires Word(w)
    ensures IndexOfSep(w + Separator + rest, 0) == Some(|w|)
  {
    var s := w + Separator + rest;
    assert s == w + (Separator + rest);
    WordHasNoSep(w, Separator + rest);
    assert s[|w|] == ' ' && s[|w| + 1] == '+' && s[|w| + 2] == ' ';
    assert SepAt(s, |w|);
  }

  /** Splitting words joined with " + " gives back the words. */
  lemma {:induction false} SplitSegmentsJoin(tokens: seq<string>)
    requires |tokens| >= 1
    requires forall i :: 0 <= i < |tokens| ==> Word(tokens[i])
    ensures SplitSegments(Join(tokens)) == tokens
    decreases |tokens|
  {
    var w := tokens[0];
    if |tokens| == 1 {
      WordHasNoSep(w, "");
      assert w + "" == w;
      assert IndexOfSep(w, 0).None?;
    } else {
      var rest := Join(tokens[1..]);
      SplitSegmentsJoin(tokens[1..]);
      FirstSepAfterWord(w, rest);
      var s := w + Separator + rest;
      assert Join(tokens) == s;
      assert s[..|w|] == w;
      assert s[|w| + 3..] == rest;
      assert [w] + tokens[1..] == tokens;
    }
  }

  /** `split` gives back the words joined with " + ": the round trip of writing a hotkey and reading it. */
  lemma SplitJoin(tokens: seq<string>)
    requires |tokens| >= 1
    requires forall i :: 0 <= i < |tokens| ==> Word(tokens[i])
    ensures JavaSplit(Join(tokens)) == tokens
  {
    SplitSegmentsJoin(tokens);
    var s := Join(tokens);
    if IndexOfSep(s, 0).None? {
    } else {
      assert tokens[|tokens| - 1] != "";
      assert DropTrailingEmpty(tokens) == tokens;
    }
  }

  /**
    When `s` does not end in a space, its last segment is non-empty and ends with the same
    character; so `split` drops nothing.
  */
  lemma {:induction false} SplitSegmentsLast(s: string)
    requires |s| > 0 && s[|s| - 1] != ' '
    ensures var t := SplitSegments(s);
      t[|t| - 1] != [] && t[|t| - 1][|t[|t| - 1]| - 1] == s[|s| - 1]
    decreases |s|
  {
    match IndexOfSep(s, 0)
    case None =>
    case Some(i) =>
      var rest := s[i + 3..];
      assert rest[|rest| - 1] == s[|s| - 1];
      SplitSegmentsLast(rest);
  }

  // ---------------------------------------------------------------------------
  // Modifiers, availability and parsing
  // ---------------------------------------------------------------------------

  /** The modifier map: Ctrl, Alt, Shift and Win; anything else is absent (`map.get` yields null). */
  function ModifierCode(name: string): (r: Option<int>)
    ensures r.Some? <==> name == "Ctrl" || name == "Alt" || name == "Shift" || name == "Win"
  {
    if name == "Ctrl" then Some(VkControl)
    else if name == "Alt" then Some(VkAlt)
    else if name == "Shift" then Some(VkShift)
    else if name == "Win" then Some(VkWin)
    else None
  }

  /** Different modifiers get different codes, and every modifier name is a word. */
  lemma ModifierCodesDistinct(a: string, b: string)
    requires ModifierCode(a).Some? && ModifierCode(b).Some?
    ensures ModifierCode(a) == ModifierCode(b) <==> a == b
    ensures Word(a)
  {
  }

  /** Every token before the last is a modifier. */
  predicate ModifiersKnown(tokens: seq<string>)
  {
    forall i :: 0 <= i < |tokens| - 1 ==> ModifierCode(tokens[i]).Some?
  }

  /*
    A string here is a sequence of code points; a Java string is a sequence of UTF-16 code units.
    A code point below U+10000 is one unit, itself; one above is a high surrogate followed by a
    low surrogate, so `charAt` at either end of a token reads only half of it.
  */

  /** The unit `charAt(0)` reads from a string that starts with `c`. */
  function FirstUnit(c: char): (u: int)
    ensures 0 <= u < 0x10000
    ensures c as int < 0x10000 ==> u == c as int
    ensures c as int >= 0x10000 ==> 0xD800 <= u < 0xDC00
  {
    if c as int < 0x10000 then c as int else 0xD800 + (c as int - 0x10000) / 0x400
  }

  /** The unit `charAt(length() - 1)` reads from a string that ends with `c`. */
  function LastUnit(c: char): (u: int)
    ensures 0 <= u < 0x10000
    ensures c as int < 0x10000 ==> u == c as int
    ensures c as int >= 0x10000 ==> 0xDC00 <= u < 0xE000
  {
    if c as int < 0x10000 then c as int else 0xDC00 + (c as int - 0x10000) % 0x400
  }

  /** Above U+FFFF the two units are a surrogate pair that decodes back to the code point. */
  lemma SurrogatePairDecodes(c: char)
    requires c as int >= 0x10000
    ensures (FirstUnit(c) - 0xD800) * 0x400 + (LastUnit(c) - 0xDC00) + 0x10000 == c as int
  {
  }

  /**
    `isHotkeyAvailable`: false at the first unknown modifier; otherwise whether the string's last
    unit is 'A'..'Z' (codes 65..90). The empty string has no last unit and throws.
  */
  function Availability(hotkey: string): Result<bool>
  {
    if !ModifiersKnown(JavaSplit(hotkey)) then Ok(false)
    else if hotkey == "" then Throws(IndexOutOfBoundsException)
    else Ok(64 < LastUnit(hotkey[|hotkey| - 1]) < 91)
  }

  /** The five codes handed to `registerHotKey`; -1 marks an unused modifier slot. */
  datatype KeySlots = KeySlots(k1: int, k2: int, k3: int, k4: int, key: int)

  /**
    The token that fills modifier slot `slot` (0..3). As written, slot 3 reads token 4, so a
    fourth modifier at token 3 is skipped; the evident intent is token 3.
  */
  function TokenForSlot(slot: nat, asWritten: bool): nat
  {
    if slot == 3 && asWritten then 4 else slot
  }

  /** Whether token `i` is looked up in the map while parsing. */
  predicate FillsSlot(i: nat, asWritten: bool)
  {
    i <= 2 || i == TokenForSlot(3, asWritten)
  }

  /** A looked-up token that is not a modifier: `map.get` yields null and unboxing it throws. */
  predicate UnknownSlotModifier(tokens: seq<string>, asWritten: bool)
  {
    exists i :: 0 <= i < |tokens| - 1 && FillsSlot(i, asWritten) && ModifierCode(tokens[i]).None?
  }

  /** The code in modifier slot `slot`: the code of its token when that token is a modifier before the last, else -1. */
  function SlotCode(tokens: seq<string>, slot: nat, asWritten: bool): int
  {
    var i := TokenForSlot(slot, asWritten);
    if i < |tokens| - 1 && ModifierCode(tokens[i]).Some? then ModifierCode(tokens[i]).value else -1
  }

  /**
    The parse of `registerHotkey`/`changeHotKey`: an unknown modifier in a slot throws; so does a
    missing or empty last token; otherwise the four modifier slots and the first UTF-16 unit of
    the last token.
  */
  function Parse(hotkey: string, asWritten: bool): Result<KeySlots>
  {
    var t := JavaSplit(hotkey);
    if UnknownSlotModifier(t, asWritten) then Throws(NullPointerException)
    else if |t| == 0 || t[|t| - 1] == "" then Throws(IndexOutOfBoundsException)
    else Ok(KeySlots(SlotCode(t, 0, asWritten), SlotCode(t, 1, asWritten), SlotCode(t, 2, asWritten),
                     SlotCode(t, 3, asWritten), FirstUnit(t[|t| - 1][0])))
  }

  /**
    An accepted hotkey always parses: its key code is the first character of its last token, a
    token that ends with the accepted 'A'..'Z' character.
  */
  lemma AvailableParses(hotkey: string, asWritten: bool)
    requires Availability(hotkey) == Ok(true)
    ensures var t := JavaSplit(hotkey);
      && Parse(hotkey, asWritten).Ok?
      && |t| >= 1 && t[|t| - 1] != []
      && Parse(hotkey, asWritten).value.key == FirstUnit(t[|t| - 1][0])
      && t[|t| - 1][|t[|t| - 1]| - 1] == hotkey[|hotkey| - 1]
      && 65 <= hotkey[|hotkey| - 1] as int <= 90
  {
    var t := JavaSplit(hotkey);
    if IndexOfSep(hotkey, 0).Some? {
      SplitSegmentsLast(hotkey);
      assert DropTrailingEmpty(SplitSegments(hotkey)) == SplitSegments(hotkey);
    }
    assert !UnknownSlotModifier(t, asWritten);
  }

  /** The codes of a list of modifiers, slot by slot, -1 past its end. */
  function CodeAt(mods: seq<string>, slot: nat): int
    requires forall i :: 0 <= i < |mods| ==> ModifierCode(mods[i]).Some?
  {
    if slot < |mods| then ModifierCode(mods[slot]).value else -1
  }

  /** A hotkey written from up to four modifiers and an upper-case key splits back into them and is accepted. */
  lemma {:induction false} WrittenHotkeyAccepted(mods: seq<string>, key: char)
    requires forall i :: 0 <= i < |mods| ==> ModifierCode(mods[i]).Some?
    requires 'A' <= key <= 'Z'
    ensures JavaSplit(Join(mods + [[key]])) == mods + [[key]]
    ensures Availability(Join(mods + [[key]])) == Ok(true)
  {
    var tokens := mods + [[key]];
    forall i | 0 <= i < |tokens| ensures Word(tokens[i]) {
      if i < |mods| {
        ModifierCodesDistinct(mods[i], mods[i]);
      }
    }
    SplitJoin(tokens);
    JoinEndsWith(tokens);
    assert ModifiersKnown(tokens) by {
      forall i | 0 <= i < |tokens| - 1 ensures ModifierCode(tokens[i]).Some? {
        assert tokens[i] == mods[i];
      }
    }
  }

  /**
    The tokens of up to four modifiers and a key: no looked-up token is unknown, and slots 0-2
    hold the first three modifiers' codes. Slot 3 holds the fourth modifier's code as intended,
    but -1 as written.
  */
  lemma SlotsOfTokens(mods: seq<string>, key: char, asWritten: bool)
    requires |mods| <= 4
    requires forall i :: 0 <= i < |mods| ==> ModifierCode(mods[i]).Some?
    ensures !UnknownSlotModifier(mods + [[key]], asWritten)
    ensures SlotCode(mods + [[key]], 0, asWritten) == CodeAt(mods, 0)
    ensures SlotCode(mods + [[key]], 1, asWritten) == CodeAt(mods, 1)
    ensures SlotCode(mods + [[key]], 2, asWritten) == CodeAt(mods, 2)
    ensures SlotCode(mods + [[key]], 3, asWritten) == if asWritten then -1 else CodeAt(mods, 3)
  {
    var tokens := mods + [[key]];
    assert forall i :: 0 <= i < |mods| ==> tokens[i] == mods[i];
  }

  /** Read as intended, such a hotkey parses back slot by slot. */
  lemma IntendedParseRoundTrip(mods: seq<string>, key: char)
    requires |mods| <= 4
    requires forall i :: 0 <= i < |mods| ==> ModifierCode(mods[i]).Some?
    requires 'A' <= key <= 'Z'
    ensures Parse(Join(mods + [[key]]), false) ==
      Ok(KeySlots(CodeAt(mods, 0), CodeAt(mods, 1), CodeAt(mods, 2), CodeAt(mods, 3), key as int))
  {
    WrittenHotkeyAccepted(mods, key);
    SlotsOfTokens(mods, key, false);
    assert (mods + [[key]])[|mods|] == [key];
  }

  /** A joined string ends with the last character of its last token. */
  lemma {:induction false} JoinEndsWith(tokens: seq<string>)
    requires |tokens| >= 1 && tokens[|tokens| - 1] != []
    ensures Join(tokens) != [] && Join(tokens)[|Join(tokens)| - 1] == tokens[|tokens| - 1][|tokens[|tokens| - 1]| - 1]
    decreases |tokens|
  {
    if |tokens| > 1 {
      JoinEndsWith(tokens[1..]);
    }
  }

  /** With at most three modifiers the slot-4 quirk cannot show: both readings parse alike. */
  lemma ParseQuirkNeedsFourModifiers(hotkey: string)
    requires |JavaSplit(hotkey)| <= 4
    ensures Parse(hotkey, true) == Parse(hotkey, false)
  {
    var t := JavaSplit(hotkey);
    assert UnknownSlotModifier(t, true) <==> UnknownSlotModifier(t, false);
  }

  /** As written, a fourth modifier never reaches the native listener: slot 3 stays -1. */
  lemma AsWrittenDropsFourthModifier(mods: seq<string>, key: char)
    requires |mods| == 4
    requires forall i :: 0 <= i < |mods| ==> ModifierCode(mods[i]).Some?
    requires 'A' <= key <= 'Z'
    ensures Availability(Join(mods + [[key]])) == Ok(true)
    ensures Parse(Join(mods + [[key]]), true) ==
      Ok(KeySlots(CodeAt(mods, 0), CodeAt(mods, 1), CodeAt(mods, 2), -1, key as int))
    ensures CodeAt(mods, 3) != -1
  {
    WrittenHotkeyAccepted(mods, key);
    SlotsOfTokens(mods, key, true);
    assert (mods + [[key]])[|mods|] == [key];
  }

  /** The default hotkey is accepted and registers Ctrl, Alt and 'J'. */
  lemma DefaultHotkeyAccepted()
    ensures Availability(DefaultHotkey) == Ok(true)
    ensures Parse(DefaultHotkey, true) == Ok(KeySlots(VkControl, VkAlt, -1, -1, 'J' as int))
  {
    var mods := ["Ctrl", "Alt"];
    var tokens := mods + [['J']];
    assert tokens[1..][1..] == ["J"];
    assert Join(tokens[1..]) == "Alt + J";
    assert Join(tokens) == DefaultHotkey;
    WrittenHotkeyAccepted(mods, 'J');
    IntendedParseRoundTrip(mods, 'J');
    ParseQuirkNeedsFourModifiers(DefaultHotkey);
  }

  /**
    A key token that starts above U+FFFF: the hotkey is accepted on its last unit 'A', and the
    native listener is given the high surrogate of its first character, not the code point.
  */
  lemma SupplementaryKeyGetsHighSurrogate()
    ensures Availability("Ctrl + \U{1F600}A") == Ok(true)
    ensures Parse("Ctrl + \U{1F600}A", true) == Ok(KeySlots(VkControl, -1, -1, -1, 0xD83D))
  {
    var tokens := ["Ctrl", "\U{1F600}A"];
    assert Join(tokens[1..]) == "\U{1F600}A";
    assert Join(tokens) == "Ctrl + \U{1F600}A";
    assert Word(tokens[0]) && Word(tokens[1]);
    SplitJoin(tokens);
    assert !UnknownSlotModifier(tokens, true);
  }

  // ---------------------------------------------------------------------------
  // Registration state
  // ---------------------------------------------------------------------------

  /** `CheckHotKeyUtil`: the registration flag and what the native listener was asked to do. */
  class HotkeyRegistrar {
    /** `isRegistered`. */
    var isRegistered: bool
    /** The arguments of every `HotkeyListener.registerHotKey` call, in order. */
    var nativeRegistrations: seq<KeySlots>
    /** `HotkeyListener.startListen` has been requested. */
    var listening: bool

    constructor ()
      ensures !isRegistered && nativeRegistrations == [] && !listening
    {
      isRegistered := false;
      nativeRegistrations := [];
      listening := false;
    }

    /** `isHotkeyAvailable`, with its loop over the modifier tokens. */
    method IsHotkeyAvailable(hotkey: string) returns (r: Result<bool>)
      ensures r == Availability(hotkey)
    {
      var hotkeys := JavaSplit(hotkey);
      var i := 0;
      while i < |hotkeys| - 1
        invariant 0 <= i
        invariant forall j :: 0 <= j < i && j < |hotkeys| - 1 ==> ModifierCode(hotkeys[j]).Some?
      {
        if ModifierCode(hotkeys[i]).None? {
          assert !ModifiersKnown(hotkeys);
          return Ok(false);
        }
        i := i + 1;
      }
      assert ModifiersKnown(hotkeys);
      if hotkey == "" {
        return Throws(IndexOutOfBoundsException);
      }
      var last := LastUnit(hotkey[|hotkey| - 1]);
      return Ok(64 < last && last < 91);
    }

    /** The token-to-code loop shared by `registerHotkey` and `changeHotKey`, as written. */
    method ParseHotkey(hotkey: string) returns (r: Result<KeySlots>)
      ensures r == Parse(hotkey, true)
    {
      var hotkey1, hotkey2, hotkey3, hotkey4 := -1, -1, -1, -1;
      var hotkeys := JavaSplit(hotkey);
      var length := |hotkeys|;
      var i := 0;
      while i < length - 1
        invariant 0 <= i <= length && (length >= 1 ==> i <= length - 1)
        invariant forall j :: 0 <= j < i && FillsSlot(j, true) ==> ModifierCode(hotkeys[j]).Some?
        invariant hotkey1 == (if i > 0 then SlotCode(hotkeys, 0, true) else -1)
        invariant hotkey2 == (if i > 1 then SlotCode(hotkeys, 1, true) else -1)
        invariant hotkey3 == (if i > 2 then SlotCode(hotkeys, 2, true) else -1)
        invariant hotkey4 == (if i > 4 then SlotCode(hotkeys, 3, true) else -1)
      {
        if FillsSlot(i, true) && ModifierCode(hotkeys[i]).None? {
          return Throws(NullPointerException);
        }
        if i == 0 {
          hotkey1 := ModifierCode(hotkeys[i]).value;
        } else if i == 1 {
          hotkey2 := ModifierCode(hotkeys[i]).value;
        } else if i == 2 {
          hotkey3 := ModifierCode(hotkeys[i]).value;
        } else if i == 4 {
          hotkey4 := ModifierCode(hotkeys[i]).value;
        }
        i := i + 1;
      }
      if length == 0 || hotkeys[length - 1] == "" {
        return Throws(IndexOutOfBoundsException);
      }
      r := Ok(KeySlots(hotkey1, hotkey2, hotkey3, hotkey4, FirstUnit(hotkeys[length - 1][0])));
    }

    /**
      `registerHotkey`: the first call sets the flag (before parsing, so even when the parse
      throws), registers the codes and starts listening; later calls are `changeHotKey`.
    */
    method RegisterHotkey(hotkey: string) returns (r: Outcome)
      modifies this
      ensures isRegistered
      ensures old(isRegistered) ==> listening == old(listening)
      ensures Parse(hotkey, true).Throws? ==>
        r == Raised(Parse(hotkey, true).exception) && nativeRegistrations == old(nativeRegistrations)
        && listening == old(listening)
      ensures Parse(hotkey, true).Ok? ==>
        r == Done && nativeRegistrations == old(nativeRegistrations) + [Parse(hotkey, true).value]
        && listening == (old(listening) || !old(isRegistered))
    {
      if !isRegistered {
        isRegistered := true;
        var parsed := ParseHotkey(hotkey);
        if parsed.Throws? {
          return Raised(parsed.exception);
        }
        nativeRegistrations := nativeRegistrations + [parsed.value];
        listening := true;
        return Done;
      }
      r := ChangeHotKey(hotkey);
    }

    /** `changeHotKey`: throws unless registered; otherwise re-registers the parsed codes. */
    method ChangeHotKey(hotkey: string) returns (r: Outcome)
      modifies this`nativeRegistrations
      ensures !isRegistered ==> r == Raised(NullPointerException) && nativeRegistrations == old(nativeRegistrations)
      ensures isRegistered && Parse(hotkey, true).Throws? ==>
        r == Raised(Parse(hotkey, true).exception) && nativeRegistrations == old(nativeRegistrations)
      ensures isRegistered && Parse(hotkey, true).Ok? ==>
        r == Done && nativeRegistrations == old(nativeRegistrations) + [Parse(hotkey, true).value]
    {
      if !isRegistered {
        return Raised(NullPointerException);
      }
      var parsed := ParseHotkey(hotkey);
      if parsed.Throws? {
        return Raised(parsed.exception);
      }
      nativeRegistrations := nativeRegistrations + [parsed.value];
      return Done;
    }
  }

  // ---------------------------------------------------------------------------
  // The listen loop
  // ---------------------------------------------------------------------------

  /** `Enums.ShowingSearchBarMode`: only a normally shown bar may be hidden by the hotkey. */
  datatype ShowingMode = NormalShowing | ExplorerAttach

  /** The events the loop submits. */
  datatype BarEvent = ShowSearchBar | HideSearchBar

  /**
    What one iteration reads: the key status before and after acting on it, whether the bar is
    visible, its showing mode, and the clock in milliseconds.
  */
  datatype Observation = Observation(pressed: bool, stillPressed: bool, visible: bool, mode: ShowingMode, now: int)

  /** An event submitted in iteration `step` at time `time`. */
  datatype Emission = Emission(step: nat, event: BarEvent, time: int)

  /** The time of the last emitted `event`, or 0 (the loop's initial `startVisibleTime`/`endVisibleTime`). */
  function LastTime(emitted: seq<Emission>, event: BarEvent): int
    decreases |emitted|
  {
    if emitted == [] then 0
    else if emitted[|emitted| - 1].event == event then emitted[|emitted| - 1].time
    else LastTime(emitted[..|emitted| - 1], event)
  }

  /** Every emission answers a press read in an iteration before `bound`, stamped with that iteration's clock. */
  predicate Stamped(trace: seq<Observation>, emitted: seq<Emission>, bound: nat)
  {
    forall k :: 0 <= k < |emitted| ==>
      emitted[k].step < bound && emitted[k].step < |trace|
      && emitted[k].time == trace[emitted[k].step].now && trace[emitted[k].step].pressed
  }

  /**
    Emission `e`, after the emissions `before`: a show answers a hidden bar more than 200 ms
    after the previous hide; a hide answers a normally shown bar more than 200 ms after the
    previous show.
  */
  predicate GuardHolds(trace: seq<Observation>, before: seq<Emission>, e: Emission)
    requires e.step < |trace|
  {
    if e.event == ShowSearchBar then
      !trace[e.step].visible && e.time - LastTime(before, HideSearchBar) > 200
    else
      trace[e.step].visible && trace[e.step].mode == NormalShowing && e.time - LastTime(before, ShowSearchBar) > 200
  }

  /** The key read released in some iteration from `from` up to, not including, `to`. */
  predicate ReleasedBetween(trace: seq<Observation>, from: nat, to: nat)
  {
    exists m :: from <= m < to && m < |trace| && !trace[m].stillPressed
  }

  /**
    Each emission meets its guard given the ones before it, and comes from a later iteration
    than the previous one, after a release of the key.
  */
  predicate WellSpaced(trace: seq<Observation>, emitted: seq<Emission>)
    requires Stamped(trace, emitted, |trace|)
    decreases |emitted|
  {
    emitted == [] ||
    var init := emitted[..|emitted| - 1];
    var e := emitted[|emitted| - 1];
    && WellSpaced(trace, init)
    && GuardHolds(trace, init, e)
    && (init != [] ==> init[|init| - 1].step < e.step && ReleasedBetween(trace, init[|init| - 1].step, e.step))
  }

  /** `WellSpaced` read emission by emission: every emission met its guard given the ones before it. */
  lemma {:induction false} WellSpacedGuards(trace: seq<Observation>, emitted: seq<Emission>)
    requires Stamped(trace, emitted, |trace|) && WellSpaced(trace, emitted)
    ensures forall k :: 0 <= k < |emitted| ==> GuardHolds(trace, emitted[..k], emitted[k])
    decreases |emitted|
  {
    if emitted != [] {
      var n := |emitted| - 1;
      var init := emitted[..n];
      assert Stamped(trace, init, |trace|);
      WellSpacedGuards(trace, init);
      forall k | 0 <= k < |emitted| ensures GuardHolds(trace, emitted[..k], emitted[k]) {
        if k < n {
          assert emitted[..k] == init[..k] && emitted[k] == init[k];
        }
      }
    }
  }

  /** `WellSpaced` read pair by pair: consecutive emissions come from increasing iterations with a release between them. */
  lemma {:induction false} WellSpacedReleases(trace: seq<Observation>, emitted: seq<Emission>)
    requires Stamped(trace, emitted, |trace|) && WellSpaced(trace, emitted)
    ensures forall k :: 0 <= k < |emitted| - 1 ==>
      emitted[k].step < emitted[k + 1].step && ReleasedBetween(trace, emitted[k].step, emitted[k + 1].step)
    decreases |emitted|
  {
    if emitted != [] {
      var n := |emitted| - 1;
      var init := emitted[..n];
      assert Stamped(trace, init, |trace|);
      WellSpacedReleases(trace, init);
      forall k | 0 <= k < n
        ensures emitted[k].step < emitted[k + 1].step && ReleasedBetween(trace, emitted[k].step, emitted[k + 1].step)
      {
        if k + 1 < n {
          assert emitted[k] == init[k] && emitted[k + 1] == init[k + 1];
        } else {
          assert emitted[k] == init[|init| - 1];
        }
      }
    }
  }

  /**
    Appending an emission that answers a press read in iteration `i`, meets its guard and, when
    it is not the first, follows a release since the previous one keeps the emissions stamped and
    well spaced; it becomes the last time of its kind.
  */
  lemma AppendEmission(trace: seq<Observation>, emitted: seq<Emission>, i: nat, e: Emission)
    requires i < |trace| && e.step == i && e.time == trace[i].now && trace[i].pressed
    requires Stamped(trace, emitted, i) && WellSpaced(trace, emitted)
    requires GuardHolds(trace, emitted, e)
    requires emitted != [] ==> ReleasedBetween(trace, emitted[|emitted| - 1].step, i)
    ensures Stamped(trace, emitted + [e], i + 1)
    ensures WellSpaced(trace, emitted + [e])
    ensures LastTime(emitted + [e], e.event) == e.time
    ensures forall ev :: ev != e.event ==> LastTime(emitted + [e], ev) == LastTime(emitted, ev)
  {
    var s := emitted + [e];
    assert s[..|emitted|] == emitted;
    assert s[|s| - 1] == e;
    assert forall k :: 0 <= k < |emitted| ==> s[k] == emitted[k];
  }

  /** The event a press read in iteration `i` asks for: a hide when the bar is visible, a show otherwise. */
  function EmissionAt(trace: seq<Observation>, i: nat): (e: Emission)
    requires i < |trace|
    ensures e.step == i && e.time == trace[i].now
    ensures e.event == HideSearchBar <==> trace[i].visible
  {
    Emission(i, if trace[i].visible then HideSearchBar else ShowSearchBar, trace[i].now)
  }

  /** What the loop carries from one iteration to the next: `isExecuted` and the events submitted so far. */
  datatype ListenState = ListenState(executed: bool, emitted: seq<Emission>)

  /**
    A press read in iteration `i` submits its event: the key was not already acted on since it
    last read released, and the event's guard holds against the events submitted before.
  */
  predicate Fires(trace: seq<Observation>, i: nat)
    requires i < |trace|
    decreases i, 1
  {
    var st := StateBefore(trace, i);
    !st.executed && trace[i].pressed && GuardHolds(trace, st.emitted, EmissionAt(trace, i))
  }

  /** The loop's state before iteration `n`. */
  function StateBefore(trace: seq<Observation>, n: nat): ListenState
    requires n <= |trace|
    decreases n, 0
  {
    if n == 0 then ListenState(false, [])
    else
      var st := StateBefore(trace, n - 1);
      var obs := trace[n - 1];
      ListenState(obs.stillPressed && (st.executed || obs.pressed),
        if Fires(trace, n - 1) then st.emitted + [EmissionAt(trace, n - 1)] else st.emitted)
  }

  /** Some press before iteration `n` has read held in every iteration since. */
  predicate Held(trace: seq<Observation>, n: nat)
    requires n <= |trace|
  {
    exists j :: 0 <= j < n && trace[j].pressed && forall m :: j <= m < n ==> trace[m].stillPressed
  }

  /** One iteration of `Held`: a press is held after iteration `i` iff the key still reads pressed and it was pressed now or held before. */
  lemma HeldStep(trace: seq<Observation>, i: nat)
    requires i < |trace|
    ensures Held(trace, i + 1) <==> trace[i].stillPressed && (trace[i].pressed || Held(trace, i))
  {
    if Held(trace, i + 1) {
      var j :| 0 <= j < i + 1 && trace[j].pressed && forall m :: j <= m < i + 1 ==> trace[m].stillPressed;
      if j < i {
        assert forall m :: j <= m < i ==> trace[m].stillPressed;
      }
    }
    if trace[i].stillPressed && Held(trace, i) {
      var j :| 0 <= j < i && trace[j].pressed && forall m :: j <= m < i ==> trace[m].stillPressed;
      assert forall m :: j <= m < i + 1 ==> trace[m].stillPressed;
    }
  }

  /** `isExecuted` is set before iteration `n` exactly when an earlier press has read held ever since. */
  lemma {:induction false} ExecutedIffHeld(trace: seq<Observation>, n: nat)
    requires n <= |trace|
    ensures StateBefore(trace, n).executed <==> Held(trace, n)
    decreases n
  {
    if n > 0 {
      ExecutedIffHeld(trace, n - 1);
      HeldStep(trace, n - 1);
    }
  }

  /** Later iterations only add events. */
  lemma {:induction false} EmittedPrefix(trace: seq<Observation>, i: nat, n: nat)
    requires i <= n <= |trace|
    ensures StateBefore(trace, i).emitted <= StateBefore(trace, n).emitted
    decreases n - i
  {
    if i < n {
      EmittedPrefix(trace, i + 1, n);
    }
  }

  /** Every event submitted before iteration `n` is the one a firing press of an earlier iteration asked for. */
  lemma {:induction false} EmittedFired(trace: seq<Observation>, n: nat)
    requires n <= |trace|
    ensures forall e :: e in StateBefore(trace, n).emitted ==> e.step < n && e == EmissionAt(trace, e.step) && Fires(trace, e.step)
    decreases n
  {
    if n > 0 {
      EmittedFired(trace, n - 1);
    }
  }

  /** Over a whole run, a press's event is submitted exactly when the press fires. */
  lemma FiresIffEmitted(trace: seq<Observation>)
    ensures var emitted := StateBefore(trace, |trace|).emitted;
      forall i :: 0 <= i < |trace| ==> (EmissionAt(trace, i) in emitted <==> Fires(trace, i))
  {
    var emitted := StateBefore(trace, |trace|).emitted;
    EmittedFired(trace, |trace|);
    forall i | 0 <= i < |trace| ensures EmissionAt(trace, i) in emitted <==> Fires(trace, i) {
      EmittedPrefix(trace, i + 1, |trace|);
      if Fires(trace, i) {
        var before := StateBefore(trace, i + 1).emitted;
        assert before[|before| - 1] == EmissionAt(trace, i);
        assert emitted[|before| - 1] == EmissionAt(trace, i);
      }
    }
  }

  /** An event becomes the last time of its own kind and leaves the other kind's last time alone. */
  lemma LastTimeAppend(emitted: seq<Emission>, e: Emission)
    ensures LastTime(emitted + [e], e.event) == e.time
    ensures forall ev :: ev != e.event ==> LastTime(emitted + [e], ev) == LastTime(emitted, ev)
  {
    var s := emitted + [e];
    assert s[..|emitted|] == emitted;
  }

  /** The events submitted before iteration `n` are stamped and well spaced, and a release follows the last when the key is not held. */
  predicate SpacedBefore(trace: seq<Observation>, n: nat)
    requires n <= |trace|
  {
    var st := StateBefore(trace, n);
    && Stamped(trace, st.emitted, n)
    && WellSpaced(trace, st.emitted)
    && (st.emitted != [] && !st.executed ==> ReleasedBetween(trace, st.emitted[|st.emitted| - 1].step, n))
  }

  /** An iteration whose press fires keeps the events spaced. */
  lemma SpacedAfterFire(trace: seq<Observation>, n: nat)
    requires 0 < n <= |trace| && SpacedBefore(trace, n - 1) && Fires(trace, n - 1)
    ensures SpacedBefore(trace, n)
  {
    var i := n - 1;
    var st := StateBefore(trace, i);
    var e := EmissionAt(trace, i);
    var next := StateBefore(trace, n);
    assert next.emitted == st.emitted + [e];
    assert !st.executed && GuardHolds(trace, st.emitted, e);
    AppendEmission(trace, st.emitted, i, e);
    if !next.executed {
      assert next.emitted[|next.emitted| - 1].step == i;
      assert !trace[i].stillPressed;
      assert ReleasedBetween(trace, i, n);
    }
  }

  /** An iteration that submits nothing keeps the events spaced. */
  lemma SpacedAfterQuiet(trace: seq<Observation>, n: nat)
    requires 0 < n <= |trace| && SpacedBefore(trace, n - 1) && !Fires(trace, n - 1)
    ensures SpacedBefore(trace, n)
  {
    var i := n - 1;
    var st := StateBefore(trace, i);
    var next := StateBefore(trace, n);
    assert next.emitted == st.emitted;
    assert Stamped(trace, st.emitted, n);
    if st.emitted != [] && !next.executed {
      var last := st.emitted[|st.emitted| - 1].step;
      if !trace[i].stillPressed {
        assert last <= i;
        assert ReleasedBetween(trace, last, n);
      } else {
        var m :| last <= m < i && m < |trace| && !trace[m].stillPressed;
        assert ReleasedBetween(trace, last, n);
      }
    }
  }

  /** Every iteration keeps the events spaced, whether its press fires or it submits nothing. */
  lemma SpacedStep(trace: seq<Observation>, n: nat)
    requires 0 < n <= |trace| && SpacedBefore(trace, n - 1)
    ensures SpacedBefore(trace, n)
  {
    if Fires(trace, n - 1) {
      SpacedAfterFire(trace, n);
    } else {
      SpacedAfterQuiet(trace, n);
    }
  }

  /**
    Before every iteration the events submitted so far are stamped and well spaced, and when the
    key is not held the last of them is followed by a release.
  */
  lemma {:induction false} StateWellSpaced(trace: seq<Observation>, n: nat)
    requires n <= |trace|
    ensures SpacedBefore(trace, n)
    decreases n
  {
    if n > 0 {
      StateWellSpaced(trace, n - 1);
      SpacedStep(trace, n);
    }
  }

  /**
    `startListenHotkeyThread`'s loop over a run of iterations. A press not yet acted on shows a
    hidden bar more than 200 ms after the last hide, or hides a normally shown bar more than
    200 ms after the last show; it is acted on once, until the key reads released.
  */
  method ListenLoop(trace: seq<Observation>) returns (emitted: seq<Emission>)
    ensures Stamped(trace, emitted, |trace|)
    ensures WellSpaced(trace, emitted)
    ensures emitted == StateBefore(trace, |trace|).emitted
    ensures forall i :: 0 <= i < |trace| ==> (EmissionAt(trace, i) in emitted <==> Fires(trace, i))
  {
    var isExecuted := false;
    var startVisibleTime := 0;
    var endVisibleTime := 0;
    emitted := [];
    var i := 0;
    while i < |trace|
      invariant 0 <= i <= |trace|
      invariant isExecuted == StateBefore(trace, i).executed
      invariant emitted == StateBefore(trace, i).emitted
      invariant startVisibleTime == LastTime(emitted, ShowSearchBar)
      invariant endVisibleTime == LastTime(emitted, HideSearchBar)
    {
      var obs := trace[i];
      if !isExecuted && obs.pressed {
        isExecuted := true;
        if !obs.visible {
          if obs.now - endVisibleTime > 200 {
            var e := Emission(i, ShowSearchBar, obs.now);
            LastTimeAppend(emitted, e);
            emitted := emitted + [e];
            startVisibleTime := obs.now;
          }
        } else {
          if obs.now - startVisibleTime > 200 {
            if obs.mode == NormalShowing {
              var e := Emission(i, HideSearchBar, obs.now);
              LastTimeAppend(emitted, e);
              emitted := emitted + [e];
              endVisibleTime := obs.now;
            }
          }
        }
      }
      if !obs.stillPressed {
        isExecuted := false;
      }
      i := i + 1;
    }
    StateWellSpaced(trace, |trace|);
    FiresIffEmitted(trace);
  }
}
