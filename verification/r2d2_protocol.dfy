/** R2D2Protocol's codec: joystick values to drive and turn frames, the stop frame,
    and sound names to sound frames. Speeds and turns are exact reals. */
module R2D2Protocol {
  import opened Wrappers
  import opened Numerics
  import Ascii
  import Hex
  import opened R2D2Tables

  type byte = Hex.byte

  /** The bytes of a table entry: an entry whose text starts with `header` decodes
      to a frame whose leading bytes are the header's bytes. */
  function EntryFrame(entry: string, header: string, len: nat): (frame: seq<byte>)
    requires IsEntry(entry, header, len) && |header| % 2 == 0
    ensures |frame| == len / 2
    ensures Hex.HexStringToBytes(entry) == Success(frame)
    ensures Hex.ToHex(frame) == entry
    ensures Hex.HexStringToBytes(header) == Success(frame[..|header| / 2])
  {
    Hex.EncodeDecodeUpper(entry);
    var frame := Hex.HexStringToBytes(entry).value;
    assert Hex.IsUpperHexString(header);
    Hex.UpperHexIsHex(header);
    var lead := Hex.HexStringToBytes(header).value;
    assert forall k :: 0 <= k < |header| / 2 ==> frame[k] == lead[k];
    assert lead == frame[..|header| / 2];
    frame
  }

  /** The byte values of the three frame headers. */
  lemma HeaderValues()
    ensures Hex.HexStringToBytes("140202") == Success([0x14, 0x02, 0x02])
    ensures Hex.HexStringToBytes("140201") == Success([0x14, 0x02, 0x01])
    ensures Hex.HexStringToBytes("1E01") == Success([0x1E, 0x01])
  {
    assert Hex.ToHex([0x14, 0x02, 0x02]) == "140202";
    assert Hex.ToHex([0x14, 0x02, 0x01]) == "140201";
    assert Hex.ToHex([0x1E, 0x01]) == "1E01";
    Hex.DecodeEncode([0x14, 0x02, 0x02]);
    Hex.DecodeEncode([0x14, 0x02, 0x01]);
    Hex.DecodeEncode([0x1E, 0x01]);
  }

  /** Clamps the speed to [-1, 1], scales 1 .. -1 onto 0 .. 62, rounds half to even,
      and clamps the index to the table. Inside [-1, 1] the index is the rounded
      scaled speed itself; outside it saturates at the nearer end. */
  function DriveIndex(speed: real): (i: int)
    ensures 0 <= i < |DriveValues|
    ensures -1.0 <= speed <= 1.0 ==> NearestEven((1.0 - speed) * 31.0, i)
    ensures speed >= 1.0 ==> i == 0
    ensures speed <= -1.0 ==> i == 62
  {
    DriveTableShape();
    var c := Clamp(speed, -1.0, 1.0);
    ScaledRoundInRange((1.0 - c) * 31.0, 62);
    ClampInt(RoundHalfEven((1.0 - c) * 31.0), 0, |DriveValues| - 1)
  }

  /** Clamps the turn to [-1, 1], scales -1 .. 1 onto 0 .. 32, rounds half to even,
      and clamps the index to the table. */
  function TurnIndex(turn: real): (i: int)
    ensures 0 <= i < |TurnValues|
    ensures -1.0 <= turn <= 1.0 ==> NearestEven((turn + 1.0) * 16.0, i)
    ensures turn <= -1.0 ==> i == 0
    ensures turn >= 1.0 ==> i == 32
  {
    TurnTableShape();
    var c := Clamp(turn, -1.0, 1.0);
    ScaledRoundInRange((c + 1.0) * 16.0, 32);
    ClampInt(RoundHalfEven((c + 1.0) * 16.0), 0, |TurnValues| - 1)
  }

  /** Rounding a value in [0, top] lands in [0, top]: the final clamp never bites. */
  lemma ScaledRoundInRange(x: real, top: nat)
    requires 0.0 <= x <= top as real
    ensures 0 <= RoundHalfEven(x) <= top
    ensures x == 0.0 ==> RoundHalfEven(x) == 0
    ensures x == top as real ==> RoundHalfEven(x) == top
  {
    RoundOfInt(0);
    RoundOfInt(top);
    RoundMonotone(0.0, x);
    RoundMonotone(x, top as real);
  }

  /** The drive frame for a speed in [-1, 1] (full forward to full backward). */
  function GetDriveCommand(speed: real): (frame: seq<byte>)
    ensures |frame| == 6
    ensures frame[..3] == [0x14, 0x02, 0x02]
    ensures Hex.ToHex(frame) == DriveValues[DriveIndex(speed)]
  {
    DriveTableShape();
    HeaderValues();
    EntryFrame(DriveValues[DriveIndex(speed)], "140202", 12)
  }

  /** The turn frame for a turn in [-1, 1] (full left to full right). */
  function GetTurnCommand(turn: real): (frame: seq<byte>)
    ensures |frame| == 6
    ensures frame[..3] == [0x14, 0x02, 0x01]
    ensures Hex.ToHex(frame) == TurnValues[TurnIndex(turn)]
  {
    TurnTableShape();
    HeaderValues();
    EntryFrame(TurnValues[TurnIndex(turn)], "140201", 12)
  }

  /** The drive frame at the stop index: the frame a zero speed selects. */
  function GetStopCommand(): (frame: seq<byte>)
    ensures frame == GetDriveCommand(0.0)
    ensures Hex.ToHex(frame) == DriveValues[DriveStopIndex]
  {
    DriveTableShape();
    DriveIndexExamples();
    EntryFrame(DriveValues[DriveStopIndex], "140202", 12)
  }

  /** The sound frame for a name, matched after lower-casing; None for a name the
      table lacks. */
  function GetSoundCommand(soundName: string): (frame: Option<seq<byte>>)
    ensures frame.Some? <==> Ascii.ToLower(soundName) in SoundEffects
    ensures frame.Some? ==> |frame.value| == 5 && frame.value[..2] == [0x1E, 0x01]
    ensures frame.Some? ==> Hex.ToHex(frame.value) == SoundEffects[Ascii.ToLower(soundName)]
  {
    var key := Ascii.ToLower(soundName);
    if key in SoundEffects then
      SoundTableShape();
      HeaderValues();
      Some(EntryFrame(SoundEffects[key], "1E01", 10))
    else
      None
  }

  /** A faster forward speed never selects a later (slower or backward) drive entry. */
  lemma DriveIndexMonotone(s: real, t: real)
    requires s <= t
    ensures DriveIndex(t) <= DriveIndex(s)
  {
    var cs, ct := Clamp(s, -1.0, 1.0), Clamp(t, -1.0, 1.0);
    assert (1.0 - ct) * 31.0 <= (1.0 - cs) * 31.0;
    RoundMonotone((1.0 - ct) * 31.0, (1.0 - cs) * 31.0);
  }

  /** A further-right turn never selects an earlier (more leftward) turn entry. */
  lemma TurnIndexMonotone(s: real, t: real)
    requires s <= t
    ensures TurnIndex(s) <= TurnIndex(t)
  {
    var cs, ct := Clamp(s, -1.0, 1.0), Clamp(t, -1.0, 1.0);
    assert (cs + 1.0) * 16.0 <= (ct + 1.0) * 16.0;
    RoundMonotone((cs + 1.0) * 16.0, (ct + 1.0) * 16.0);
  }

  /** The drive table is symmetric around its middle: reversing the speed mirrors the
      index about 31, ties included, because 31 is the centre and 62 is even. */
  lemma DriveIndexMirror(speed: real)
    ensures DriveIndex(-speed) == 62 - DriveIndex(speed)
  {
    var c := Clamp(speed, -1.0, 1.0);
    assert Clamp(-speed, -1.0, 1.0) == -c;
    assert (1.0 - -c) * 31.0 == 62.0 - (1.0 - c) * 31.0;
    RoundReflect((1.0 - c) * 31.0, 31);
  }

  /** Reversing the turn mirrors the turn index about 16. */
  lemma TurnIndexMirror(turn: real)
    ensures TurnIndex(-turn) == 32 - TurnIndex(turn)
  {
    var c := Clamp(turn, -1.0, 1.0);
    assert Clamp(-turn, -1.0, 1.0) == -c;
    assert (-c + 1.0) * 16.0 == 32.0 - (c + 1.0) * 16.0;
    RoundReflect((c + 1.0) * 16.0, 16);
  }

  /** Full forward, stop, full backward, saturation beyond the range, the two exact
      ties at half speed (15.5 and 46.5 round to the even 16 and 46), and tiny speeds
      that round back to the stop entry. */
  lemma DriveIndexExamples()
    ensures DriveIndex(1.0) == 0 && DriveIndex(-1.0) == 62
    ensures DriveIndex(2.0) == 0 && DriveIndex(-2.0) == 62
    ensures DriveIndex(0.0) == 31 == DriveStopIndex
    ensures DriveIndex(0.5) == 16 && DriveIndex(-0.5) == 46
    ensures DriveIndex(0.001) == 31 && DriveIndex(-0.001) == 31
  {
    NearestEvenUnique(31.0, DriveIndex(0.0), 31);
    NearestEvenUnique(15.5, DriveIndex(0.5), 16);
    NearestEvenUnique(46.5, DriveIndex(-0.5), 46);
    NearestEvenUnique(30.969, DriveIndex(0.001), 31);
    NearestEvenUnique(31.031, DriveIndex(-0.001), 31);
  }

  /** Full left, full right, saturation, quarter turns, and tiny turns. A zero turn
      selects index 16, not the table's declared straight index 15. */
  lemma TurnIndexExamples()
    ensures TurnIndex(-1.0) == 0 && TurnIndex(1.0) == 32
    ensures TurnIndex(-2.0) == 0 && TurnIndex(2.0) == 32
    ensures TurnIndex(0.0) == 16 && TurnIndex(0.0) != TurnStraightIndex
    ensures TurnIndex(0.5) == 24 && TurnIndex(-0.5) == 8
    ensures TurnIndex(0.001) == 16 && TurnIndex(-0.001) == 16
  {
    NearestEvenUnique(16.0, TurnIndex(0.0), 16);
    NearestEvenUnique(24.0, TurnIndex(0.5), 24);
    NearestEvenUnique(8.0, TurnIndex(-0.5), 8);
    NearestEvenUnique(16.016, TurnIndex(0.001), 16);
    NearestEvenUnique(15.984, TurnIndex(-0.001), 16);
  }

  /** Sound lookup ignores ASCII case. */
  lemma SoundCaseInsensitive(soundName: string)
    ensures GetSoundCommand(Ascii.ToUpper(soundName)) == GetSoundCommand(soundName)
  {
    Ascii.ToLowerOfUpper(soundName);
  }

  /** "beep" in any case yields the frame 1E 01 15 A3 64. */
  lemma BeepExample()
    ensures GetSoundCommand("beep") == Some([0x1E, 0x01, 0x15, 0xA3, 0x64])
    ensures GetSoundCommand("BEEP") == GetSoundCommand("beep")
    ensures GetSoundCommand("BeEp") == GetSoundCommand("beep")
  {
    SoundCaseInsensitive("beep");
    SoundCaseInsensitive("BeEp");
    assert Ascii.ToUpper("beep") == "BEEP";
    assert Ascii.ToUpper("BeEp") == "BEEP";
    BeepEntry("beep");
    BeepBytes();
  }

  lemma BeepBytes()
    ensures Hex.HexStringToBytes("1E0115A364") == Success([0x1E, 0x01, 0x15, 0xA3, 0x64])
  {
    var frame: seq<byte> := [0x1E, 0x01, 0x15, 0xA3, 0x64];
    assert Hex.ToHex(frame) == "1E0115A364";
    Hex.DecodeEncode(frame);
  }

  lemma BeepEntry(name: string)
    requires name == "beep"
    ensures Ascii.ToLower(name) == name
    ensures name in SoundEffects && SoundEffects[name] == "1E0115A364"
  {
  }

  /** A name with a character no sound name uses (after lower-casing) finds nothing. */
  lemma ForeignCharacterNoSound(soundName: string, k: nat)
    requires k < |soundName| && !IsNameChar(Ascii.ToLower(soundName)[k])
    ensures GetSoundCommand(soundName) == None
  {
    if Ascii.ToLower(soundName) in SoundEffects {
      SoundNameChars(Ascii.ToLower(soundName));
    }
  }

  /** A character outside ASCII other than the Kelvin sign finds nothing: whatever its
      invariant lower case is, it is not ASCII, and every sound name is. */
  lemma NonAsciiNoSound(soundName: string, k: nat)
    requires k < |soundName| && soundName[k] as int >= 128 && soundName[k] != Ascii.KelvinSign
    ensures GetSoundCommand(soundName) == None
  {
    assert Ascii.ToLower(soundName)[k] as int >= 128;
    ForeignCharacterNoSound(soundName, k);
  }

  /** The Kelvin sign lower-cases to 'k', so "thin\U{212A}ing" finds the "thinking" frame. */
  lemma KelvinExample()
    ensures GetSoundCommand("thin\U{212A}ing") == GetSoundCommand("thinking")
    ensures GetSoundCommand("thinking").Some?
  {
    var name := "thin\U{212A}ing";
    assert Ascii.ToLower(name) == "thinking";
    assert Ascii.ToLower("thinking") == "thinking";
  }

  /** Names absent from the table, including two the table lacks although it holds
      "wow" and "scream". */
  lemma UnknownSounds()
    ensures GetSoundCommand("nonexistent_sound") == None
    ensures GetSoundCommand("wow!") == None
    ensures GetSoundCommand("scream!!") == None
    ensures GetSoundCommand("surprise!!") == None
  {
    ForeignCharacterNoSound("nonexistent_sound", 11);
    ForeignCharacterNoSound("wow!", 3);
    ForeignCharacterNoSound("scream!!", 6);
    ForeignCharacterNoSound("surprise!!", 8);
  }
}
