/** The LittleBits R2-D2 command tables: pre-captured frames written as upper-case
    hexadecimal text, the indices that name the stop and straight-ahead frames, and
    the GATT identifiers of the robot's control hub. */
module R2D2Tables {
  import Ascii
  import Hex

  const ServiceUuid: string := "d9d9e9e0-aa4e-4797-8151-cb41cedaf2ad"
  const CharacteristicUuid: string := "d9d9e9e1-aa4e-4797-8151-cb41cedaf2ad"

  /** Drive frames: index 0 is full forward, 31 stop, 62 (the last) full backward.
      The table is written as its forward half (through the stop frame) followed by its
      backward half; the concatenation is the source's single 63-entry array. */
  const DriveValues: seq<string> := DriveForward + DriveBackward

  const DriveForward: seq<string> := [
      "140202FF659D", "140202FA3538", "140202F6F4B4", "140202F2B430",
      "140202ED57EE", "140202EA2709", "140202E6E685", "140202E3B620",
      "140202DF41FF", "140202DA115A", "140202D6D0D6", "140202D29052",
      "140202CE43EF", "140202CA036B", "140202C5F284", "140202C28263",
      "140202BE3D78", "140202BA7DFC", "140202B6BC70", "140202B2FCF4",
      "140202AB7FEC", "140202AA6FCD", "140202A6AE41", "140202A2EEC5",
      "140202A1DEA6", "1402029E191A", "1402029969FD", "140202969812",
      "14020292D896", "1402028D3B48", "1402028A4BAF", "140202897BCC"
    ]

  const DriveBackward: seq<string> := [
      "1402027DD457", "1402027994D3", "14020276653C", "1402027225B8",
      "1402026EF605", "1402026DC666", "1402026896C3", "1402026327A8",
      "1402026107EA", "1402025CE014", "14020259B0B1", "14020255713D",
      "140202502198", "1402024B82C2", "14020249A280", "14020245630C",
      "140202412388", "1402023BFC55", "14020239DC17", "140202337D5D",
      "140202304D3E", "1402022BEE64", "14020229CE26", "140202214F2E",
      "140202205F0F", "1402021BD837", "14020218E854", "1402021429D8",
      "1402020F8A82", "1402020CBAE1", "140202070B8A"
    ]

  /** Turn frames: index 0 is full left, 32 (the last) full right. */
  const TurnValues: seq<string> := [
      "140201FC00AD", "140201EA725A", "140201E49394", "140201DF14AC",
      "140201D9746A", "140201D1F562", "140201CC36FE", "140201C697B4",
      "140201C0F772", "140201B918CC", "140201B4C961", "140201AE7A1A",
      "140201A7EB33", "140201A2BB96", "1402019C6C0B", "14020196CD41",
      "14020190AD87", "1402018A1EFC", "14020184FF32", "1402017EB167",
      "14020178D1A1", "1402017270EB", "1402016C8314", "14020166225E",
      "140201604298", "1402015AD581", "14020154344F", "1402014F9715",
      "14020149F7D3", "1402014246B8", "1402013CD9E1", "1402013548C8",
      "140201002E3E"
    ]

  const DriveStopIndex: int := 31
  const TurnStraightIndex: int := 15

  /** Sound frames by lower-case name. */
  const SoundEffects: map<string, string> := map[
      "grump" := "1E011B42AA",
      "scold" := "1E011A528B",
      "chitter" := "1E011962E8",
      "chattering" := "1E011872C9",
      "i love you" := "1E01178326",
      "bleep" := "1E01169307",
      "beep" := "1E0115A364",
      "whistle" := "1E0114B345",
      "descending" := "1E0113C3A2",
      "excited" := "1E0112D383",
      "cheery" := "1E0111E3E0",
      "sad" := "1E0110F3C1",
      "scream" := "1E010F101F",
      "startup" := "1E010E003E",
      "surprise" := "1E010C207C",
      "story" := "1E010A40BA",
      "wow" := "1E010860F8",
      "thbt" := "1E01068136",
      "worried" := "1E0104A174",
      "dubious" := "1E0102C1B2",
      "startup2" := "1E0101F1D1",
      "thinking" := "1E0100E1F0"
    ]

  /** A table entry: `len` characters of upper-case hexadecimal text that start with
      `header` (the frame's command bytes, shared by every entry of a table). */
  predicate IsEntry(s: string, header: string, len: nat)
  {
    && |s| == len
    && Hex.IsUpperHexString(s)
    && |header| <= len
    && forall i :: 0 <= i < |header| ==> s[i] == header[i]
  }

  predicate IsUpperHexDigit(c: char)
  {
    '0' <= c <= '9' || 'A' <= c <= 'F'
  }

  /** `IsEntry` for a 12-character motor frame, spelt out character by character. */
  predicate IsMotorText(s: string, channel: char)
  {
    && |s| == 12
    && s[0] == '1' && s[1] == '4' && s[2] == '0' && s[3] == '2' && s[4] == '0' && s[5] == channel
    && IsUpperHexDigit(s[6]) && IsUpperHexDigit(s[7]) && IsUpperHexDigit(s[8])
    && IsUpperHexDigit(s[9]) && IsUpperHexDigit(s[10]) && IsUpperHexDigit(s[11])
  }

  /** `IsEntry` for a 10-character sound frame, spelt out character by character. */
  predicate IsSoundText(s: string)
  {
    && |s| == 10
    && s[0] == '1' && s[1] == 'E' && s[2] == '0' && s[3] == '1'
    && IsUpperHexDigit(s[4]) && IsUpperHexDigit(s[5]) && IsUpperHexDigit(s[6])
    && IsUpperHexDigit(s[7]) && IsUpperHexDigit(s[8]) && IsUpperHexDigit(s[9])
  }

  lemma MotorTextIsEntry(s: string, channel: char)
    requires channel == '1' || channel == '2'
    requires IsMotorText(s, channel)
    ensures IsEntry(s, ['1', '4', '0', '2', '0', channel], 12)
  {
    forall i | 0 <= i < 12
      ensures Hex.IsHexDigit(s[i]) && !Ascii.IsLower(s[i])
    {
      if i < 6 {} else if i < 9 {} else {}
    }
  }

  lemma SoundTextIsEntry(s: string)
    requires IsSoundText(s)
    ensures IsEntry(s, "1E01", 10)
  {
    forall i | 0 <= i < 10
      ensures Hex.IsHexDigit(s[i]) && !Ascii.IsLower(s[i])
    {
      if i < 4 {} else if i < 7 {} else {}
    }
  }

  lemma DriveForwardText(i: int)
    requires 0 <= i < |DriveForward|
    ensures IsMotorText(DriveForward[i], '2')
  {
    if i < 8 {
      DriveForwardText0(i);
    } else if i < 16 {
      DriveForwardText1(i);
    } else if i < 24 {
      DriveForwardText2(i);
    } else {
      DriveForwardText3(i);
    }
  }

  lemma DriveForwardText0(i: int)
    requires 0 <= i < 8
    ensures IsMotorText(DriveForward[i], '2')
  {
    match i
    case 0 => {}
    case 1 => {}
    case 2 => {}
    case 3 => {}
    case 4 => {}
    case 5 => {}
    case 6 => {}
    case 7 => {}
  }

  lemma DriveForwardText1(i: int)
    requires 8 <= i < 16
    ensures IsMotorText(DriveForward[i], '2')
  {
    match i
    case 8 => {}
    case 9 => {}
    case 10 => {}
    case 11 => {}
    case 12 => {}
    case 13 => {}
    case 14 => {}
    case 15 => {}
  }

  lemma DriveForwardText2(i: int)
    requires 16 <= i < 24
    ensures IsMotorText(DriveForward[i], '2')
  {
    match i
    case 16 => {}
    case 17 => {}
    case 18 => {}
    case 19 => {}
    case 20 => {}
    case 21 => {}
    case 22 => {}
    case 23 => {}
  }

  lemma DriveForwardText3(i: int)
    requires 24 <= i < 32
    ensures IsMotorText(DriveForward[i], '2')
  {
    match i
    case 24 => {}
    case 25 => {}
    case 26 => {}
    case 27 => {}
    case 28 => {}
    case 29 => {}
    case 30 => {}
    case 31 => {}
  }

  lemma DriveBackwardText(i: int)
    requires 0 <= i < |DriveBackward|
    ensures IsMotorText(DriveBackward[i], '2')
  {
    if i < 8 {
      DriveBackwardText0(i);
    } else if i < 16 {
      DriveBackwardText1(i);
    } else if i < 24 {
      DriveBackwardText2(i);
    } else {
      DriveBackwardText3(i);
    }
  }

  lemma DriveBackwardText0(i: int)
    requires 0 <= i < 8
    ensures IsMotorText(DriveBackward[i], '2')
  {
    match i
    case 0 => {}
    case 1 => {}
    case 2 => {}
    case 3 => {}
    case 4 => {}
    case 5 => {}
    case 6 => {}
    case 7 => {}
  }

  lemma DriveBackwardText1(i: int)
    requires 8 <= i < 16
    ensures IsMotorText(DriveBackward[i], '2')
  {
    match i
    case 8 => {}
    case 9 => {}
    case 10 => {}
    case 11 => {}
    case 12 => {}
    case 13 => {}
    case 14 => {}
    case 15 => {}
  }

  lemma DriveBackwardText2(i: int)
    requires 16 <= i < 24
    ensures IsMotorText(DriveBackward[i], '2')
  {
    match i
    case 16 => {}
    case 17 => {}
    case 18 => {}
    case 19 => {}
    case 20 => {}
    case 21 => {}
    case 22 => {}
    case 23 => {}
  }

  lemma DriveBackwardText3(i: int)
    requires 24 <= i < 31
    ensures IsMotorText(DriveBackward[i], '2')
  {
    match i
    case 24 => {}
    case 25 => {}
    case 26 => {}
    case 27 => {}
    case 28 => {}
    case 29 => {}
    case 30 => {}
  }

  lemma TurnText(i: int)
    requires 0 <= i < |TurnValues|
    ensures IsMotorText(TurnValues[i], '1')
  {
    if i < 9 {
      TurnText0(i);
    } else if i < 18 {
      TurnText1(i);
    } else if i < 27 {
      TurnText2(i);
    } else {
      TurnText3(i);
    }
  }

  lemma TurnText0(i: int)
    requires 0 <= i < 9
    ensures IsMotorText(TurnValues[i], '1')
  {
    match i
    case 0 => {}
    case 1 => {}
    case 2 => {}
    case 3 => {}
    case 4 => {}
    case 5 => {}
    case 6 => {}
    case 7 => {}
    case 8 => {}
  }

  lemma TurnText1(i: int)
    requires 9 <= i < 18
    ensures IsMotorText(TurnValues[i], '1')
  {
    match i
    case 9 => {}
    case 10 => {}
    case 11 => {}
    case 12 => {}
    case 13 => {}
    case 14 => {}
    case 15 => {}
    case 16 => {}
    case 17 => {}
  }

  lemma TurnText2(i: int)
    requires 18 <= i < 27
    ensures IsMotorText(TurnValues[i], '1')
  {
    match i
    case 18 => {}
    case 19 => {}
    case 20 => {}
    case 21 => {}
    case 22 => {}
    case 23 => {}
    case 24 => {}
    case 25 => {}
    case 26 => {}
  }

  lemma TurnText3(i: int)
    requires 27 <= i < 33
    ensures IsMotorText(TurnValues[i], '1')
  {
    match i
    case 27 => {}
    case 28 => {}
    case 29 => {}
    case 30 => {}
    case 31 => {}
    case 32 => {}
  }

  /** 63 drive frames, each 12 hexadecimal digits behind the drive header 14 02 02,
      with the stop index inside the table. */
  lemma DriveTableShape()
    ensures |DriveValues| == 63
    ensures forall i :: 0 <= i < |DriveValues| ==> IsEntry(DriveValues[i], "140202", 12)
    ensures 0 <= DriveStopIndex < |DriveValues|
  {
    forall i | 0 <= i < |DriveValues|
      ensures IsEntry(DriveValues[i], "140202", 12)
    {
      if i < |DriveForward| {
        DriveForwardText(i);
      } else {
        DriveBackwardText(i - |DriveForward|);
      }
      MotorTextIsEntry(DriveValues[i], '2');
    }
  }

  /** 33 turn frames, each 12 hexadecimal digits behind the turn header 14 02 01,
      with the straight-ahead index inside the table. */
  lemma TurnTableShape()
    ensures |TurnValues| == 33
    ensures forall i :: 0 <= i < |TurnValues| ==> IsEntry(TurnValues[i], "140201", 12)
    ensures 0 <= TurnStraightIndex < |TurnValues|
  {
    forall i | 0 <= i < |TurnValues|
      ensures IsEntry(TurnValues[i], "140201", 12)
    {
      TurnText(i);
      MotorTextIsEntry(TurnValues[i], '1');
    }
  }

  /** 22 sounds, each 10 hexadecimal digits behind the sound header 1E 01, under
      names that are already lower case. */
  lemma SoundTableShape()
    ensures |SoundEffects| == 22
    ensures forall name :: name in SoundEffects ==> IsEntry(SoundEffects[name], "1E01", 10)
    ensures forall name :: name in SoundEffects ==> Ascii.ToLower(name) == name
  {
    SoundTableSize();
    forall name | name in SoundEffects
      ensures IsEntry(SoundEffects[name], "1E01", 10) && Ascii.ToLower(name) == name
    {
      SoundText(name);
      SoundNameLower(name);
      SoundTextIsEntry(SoundEffects[name]);
    }
  }

  lemma SoundTableSize()
    ensures |SoundEffects| == 22
  {
    SoundNames(SoundEffects.Keys);
    SoundNamesSize(SoundEffects.Keys);
  }

  lemma SoundNames(names: set<string>)
    requires names == SoundEffects.Keys
    ensures names == {"grump", "scold", "chitter", "chattering", "i love you", "bleep", "beep", "whistle", "descending", "excited", "cheery", "sad", "scream", "startup", "surprise", "story", "wow", "thbt", "worried", "dubious", "startup2", "thinking"}
  {
  }

  lemma SoundNamesSize(names: set<string>)
    requires names == {"grump", "scold", "chitter", "chattering", "i love you", "bleep", "beep", "whistle", "descending", "excited", "cheery", "sad", "scream", "startup", "surprise", "story", "wow", "thbt", "worried", "dubious", "startup2", "thinking"}
    ensures |names| == 22
  {
    var first, second := {"grump", "scold", "chitter", "chattering", "i love you", "bleep", "beep", "whistle", "descending", "excited", "cheery"}, {"sad", "scream", "startup", "surprise", "story", "wow", "thbt", "worried", "dubious", "startup2", "thinking"};
    assert names == first + second;
    HalfSize(first, second);
  }

  lemma HalfSize(first: set<string>, second: set<string>)
    requires first == {"grump", "scold", "chitter", "chattering", "i love you", "bleep", "beep", "whistle", "descending", "excited", "cheery"}
    requires second == {"sad", "scream", "startup", "surprise", "story", "wow", "thbt", "worried", "dubious", "startup2", "thinking"}
    ensures |first + second| == 22
  {
    FirstSize(first);
    SecondSize(second);
    HalvesDisjoint(first, second);
  }

  lemma FirstSize(first: set<string>)
    requires first == {"grump", "scold", "chitter", "chattering", "i love you", "bleep", "beep", "whistle", "descending", "excited", "cheery"}
    ensures |first| == 11
  {
  }

  lemma SecondSize(second: set<string>)
    requires second == {"sad", "scream", "startup", "surprise", "story", "wow", "thbt", "worried", "dubious", "startup2", "thinking"}
    ensures |second| == 11
  {
  }

  lemma HalvesDisjoint(first: set<string>, second: set<string>)
    requires first == {"grump", "scold", "chitter", "chattering", "i love you", "bleep", "beep", "whistle", "descending", "excited", "cheery"}
    requires second == {"sad", "scream", "startup", "surprise", "story", "wow", "thbt", "worried", "dubious", "startup2", "thinking"}
    ensures first !! second
  {
  }

  lemma SoundText(name: string)
    requires name in SoundEffects
    ensures IsSoundText(SoundEffects[name])
  {
    if name in {"grump", "scold", "chitter", "chattering", "i love you", "bleep", "beep", "whistle", "descending", "excited", "cheery"} {
      SoundTextFirst(name);
    } else {
      SoundTextSecond(name);
    }
  }

  lemma SoundTextFirst(name: string)
    requires name in {"grump", "scold", "chitter", "chattering", "i love you", "bleep", "beep", "whistle", "descending", "excited", "cheery"}
    ensures name in SoundEffects && IsSoundText(SoundEffects[name])
  {
  }

  lemma SoundTextSecond(name: string)
    requires name in SoundEffects && name !in {"grump", "scold", "chitter", "chattering", "i love you", "bleep", "beep", "whistle", "descending", "excited", "cheery"}
    ensures IsSoundText(SoundEffects[name])
  {
  }

  /** A sound-name character: a lower-case letter, a digit or a space. */
  predicate IsNameChar(c: char)
  {
    Ascii.IsLower(c) || ('0' <= c <= '9') || c == ' '
  }

  /** Every sound name is spelled with lower-case letters, digits and spaces only. */
  lemma SoundNameChars(name: string)
    requires name in SoundEffects
    ensures forall k :: 0 <= k < |name| ==> IsNameChar(name[k])
  {
    if name in {"grump", "scold", "chitter", "chattering", "i love you", "bleep", "beep", "whistle", "descending", "excited", "cheery"} {
      SoundNameCharsFirst(name);
    } else {
      SoundNameCharsSecond(name);
    }
  }

  lemma SoundNameCharsFirst(name: string)
    requires name in {"grump", "scold", "chitter", "chattering", "i love you", "bleep", "beep", "whistle", "descending", "excited", "cheery"}
    ensures forall k :: 0 <= k < |name| ==> IsNameChar(name[k])
  {
  }

  lemma SoundNameCharsSecond(name: string)
    requires name in SoundEffects && name !in {"grump", "scold", "chitter", "chattering", "i love you", "bleep", "beep", "whistle", "descending", "excited", "cheery"}
    ensures forall k :: 0 <= k < |name| ==> IsNameChar(name[k])
  {
  }

  /** Sound names are already lower case, so lower-casing a name finds it unchanged. */
  lemma SoundNameLower(name: string)
    requires name in SoundEffects
    ensures Ascii.ToLower(name) == name
  {
    SoundNameChars(name);
    assert forall k :: 0 <= k < |name| ==> !Ascii.IsUpper(name[k]);
  }
}
