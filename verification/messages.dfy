/** The channel messages the live player sends to a MIDI output port (the
    `sendNoteOn` … `sendAllNotesOff` callbacks of the output hook), as the
    bytes handed to the port.

    Every builder ORs a message kind with `(channel - 1) & 0x0F` and masks
    its data with `& 0x7F`. On integers those masks are the Euclidean
    remainders by 16 and by 128 (two's complement keeps the low bits), which
    is how they are written here, so a channel or a value out of range wraps
    instead of corrupting the status byte. */
module Messages {
  import opened Types
  import Decoder

  /** `x & 0x0F`. */
  function Low4(x: int): (r: byte)
    ensures r < 16
    ensures (x - r) % 16 == 0
  {
    x % 16
  }

  /** `x & 0x7F`. */
  function Low7(x: int): (r: byte)
    ensures r < 0x80
    ensures (x - r) % 128 == 0
    ensures 0 <= x < 0x80 ==> r == x
  {
    x % 128
  }

  /** The message kinds the player sends: Note-Off, Note-On, Control Change
      and Program Change (section "Channel Voice Messages" of MIDI 1.0). */
  predicate IsKind(kind: byte) {
    kind == 0x80 || kind == 0x90 || kind == 0xB0 || kind == 0xC0
  }

  /** `kind | ((channel - 1) & 0x0F)`, for a user-facing channel 1..16. */
  function StatusByte(kind: byte, channel: int): (r: byte)
    requires IsKind(kind)
    ensures r >= 0x80
    ensures Decoder.MessageType(r) == kind
    ensures (ChannelOf(r) - channel) % 16 == 0
  {
    kind + Low4(channel - 1)
  }

  /** The 1-based channel a status byte addresses. */
  function ChannelOf(status: byte): (r: int)
    ensures 1 <= r <= 16
  {
    status % 16 + 1
  }

  /** How many data bytes follow a channel status byte: one for Program
      Change and Channel Pressure, two for the others (MIDI 1.0). */
  function DataLength(status: byte): (r: nat)
    requires status >= 0x80
    ensures r == 1 || r == 2
  {
    var kind := Decoder.MessageType(status);
    if kind == 0xC0 || kind == 0xD0 then 1 else 2
  }

  /** A complete channel message: a status byte, then exactly as many data
      bytes as it calls for, each with bit 7 clear. */
  predicate WellFormed(msg: seq<byte>) {
    && |msg| > 0
    && 0x80 <= msg[0] < 0xF0
    && |msg| == 1 + DataLength(msg[0])
    && forall k :: 1 <= k < |msg| ==> msg[k] < 0x80
  }

  /** `sendNoteOn`. */
  function NoteOnMessage(pitch: int, velocity: int, channel: int): (r: seq<byte>)
    ensures |r| == 3
    ensures Decoder.MessageType(r[0]) == 0x90 && (ChannelOf(r[0]) - channel) % 16 == 0
    ensures r[1] < 0x80 && (pitch - r[1]) % 128 == 0
    ensures r[2] < 0x80 && (velocity - r[2]) % 128 == 0
  {
    [StatusByte(0x90, channel), Low7(pitch), Low7(velocity)]
  }

  /** `sendNoteOff`: the release velocity is always 0. */
  function NoteOffMessage(pitch: int, channel: int): (r: seq<byte>)
    ensures |r| == 3
    ensures Decoder.MessageType(r[0]) == 0x80 && (ChannelOf(r[0]) - channel) % 16 == 0
    ensures r[1] < 0x80 && (pitch - r[1]) % 128 == 0
    ensures r[2] == 0
  {
    [StatusByte(0x80, channel), Low7(pitch), 0]
  }

  /** `sendProgramChange`: programs are numbered from 1 on the user side. */
  function ProgramChangeMessage(program: int, channel: int): (r: seq<byte>)
    ensures |r| == 2
    ensures Decoder.MessageType(r[0]) == 0xC0 && (ChannelOf(r[0]) - channel) % 16 == 0
    ensures r[1] < 0x80 && (program - 1 - r[1]) % 128 == 0
  {
    [StatusByte(0xC0, channel), Low7(program - 1)]
  }

  /** `sendBankSelect`: Control Change 0 (bank select, most significant
      part), banks numbered from 1 on the user side. */
  function BankSelectMessage(bank: int, channel: int): (r: seq<byte>)
    ensures |r| == 3
    ensures Decoder.MessageType(r[0]) == 0xB0 && (ChannelOf(r[0]) - channel) % 16 == 0
    ensures r[1] == 0
    ensures r[2] < 0x80 && (bank - 1 - r[2]) % 128 == 0
  {
    [StatusByte(0xB0, channel), 0, Low7(bank - 1)]
  }

  /** Control Change 123, All Notes Off. */
  const AllNotesOff: byte := 123

  /** `sendAllNotesOff`. */
  function AllNotesOffMessage(channel: int): (r: seq<byte>)
    ensures |r| == 3
    ensures Decoder.MessageType(r[0]) == 0xB0 && (ChannelOf(r[0]) - channel) % 16 == 0
    ensures r[1..] == [0x7B, 0]
  {
    [StatusByte(0xB0, channel), AllNotesOff, 0]
  }

  /** The status byte keeps the kind and addresses the requested channel:
      exactly for channels 1..16, modulo 16 for any other integer. */
  lemma ChannelRoundTrip(kind: byte, channel: int)
    requires IsKind(kind)
    ensures Decoder.MessageType(StatusByte(kind, channel)) == kind
    ensures (ChannelOf(StatusByte(kind, channel)) - channel) % 16 == 0
    ensures 1 <= channel <= 16 ==> ChannelOf(StatusByte(kind, channel)) == channel
  {
  }

  /** Whatever numbers the callers pass, every builder produces a complete
      channel message of the kind it names, on the channel it was asked for
      (modulo 16). */
  lemma BuildersWellFormed(pitch: int, velocity: int, value: int, channel: int)
    ensures WellFormed(NoteOnMessage(pitch, velocity, channel))
    ensures WellFormed(NoteOffMessage(pitch, channel))
    ensures WellFormed(ProgramChangeMessage(value, channel))
    ensures WellFormed(BankSelectMessage(value, channel))
    ensures WellFormed(AllNotesOffMessage(channel))
    ensures Decoder.MessageType(NoteOnMessage(pitch, velocity, channel)[0]) == 0x90
    ensures Decoder.MessageType(NoteOffMessage(pitch, channel)[0]) == 0x80
    ensures Decoder.MessageType(ProgramChangeMessage(value, channel)[0]) == 0xC0
    ensures Decoder.MessageType(BankSelectMessage(value, channel)[0]) == 0xB0
    ensures Decoder.MessageType(AllNotesOffMessage(channel)[0]) == 0xB0
  {
    ChannelRoundTrip(0x90, channel);
    ChannelRoundTrip(0x80, channel);
    ChannelRoundTrip(0xC0, channel);
    ChannelRoundTrip(0xB0, channel);
  }

  /** In-range arguments come through unchanged: pitch and velocity as they
      are, program and bank shifted to the zero-based numbers on the wire. */
  lemma DataRoundTrip(pitch: int, velocity: int, value: int, channel: int)
    requires 0 <= pitch < 0x80 && 0 <= velocity < 0x80 && 1 <= value <= 0x80
    ensures NoteOnMessage(pitch, velocity, channel)[1..] == [pitch, velocity]
    ensures NoteOffMessage(pitch, channel)[1] == pitch
    ensures ProgramChangeMessage(value, channel)[1] + 1 == value
    ensures BankSelectMessage(value, channel)[2] + 1 == value
  {
  }

  /** The player's messages mean to a receiver what the same bytes mean
      inside a MIDI file: fed to the file decoder as the body of an event,
      a Note-On opens (or, with velocity 0, closes) the note at its pitch,
      a Note-Off closes it, and the others change no note. */
  lemma DecoderAgrees(pitch: int, velocity: int, value: int, channel: int,
                      time: real, st: Decoder.DecodeState)
    ensures var m := NoteOnMessage(pitch, velocity, channel);
      Decoder.DecodeMessage(m, m[0], 1, time, st) == Some((3, Decoder.NoteOn(st, Low7(pitch), Low7(velocity), time)))
    ensures var m := NoteOffMessage(pitch, channel);
      Decoder.DecodeMessage(m, m[0], 1, time, st) == Some((3, Decoder.CloseNote(st, Low7(pitch), time)))
    ensures var m := ProgramChangeMessage(value, channel);
      Decoder.DecodeMessage(m, m[0], 1, time, st) == Some((2, st))
    ensures var m := BankSelectMessage(value, channel);
      Decoder.DecodeMessage(m, m[0], 1, time, st) == Some((3, st))
    ensures var m := AllNotesOffMessage(channel);
      Decoder.DecodeMessage(m, m[0], 1, time, st) == Some((3, st))
  {
    BuildersWellFormed(pitch, velocity, value, channel);
  }
}
