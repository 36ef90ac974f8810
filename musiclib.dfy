/** The song list (src/musiclib.js): the tempo and title of every track are
    parsed out of its file name, of the form "NNN - Title.mp3". */
module MusicLib {
  import opened Wrappers

  /** One entry of the song list. `bpm` is None where `Number` gives NaN;
      `delay` and `fastForward` are None where the table has no entry. */
  datatype Song = Song(bpm: Option<nat>, name: string, fullName: string, delay: Option<int>, fastForward: Option<int>)

  /** `FILES`. */
  const Files: seq<string> := ["100 - Rock the Party - Alexi Action.mp3"]
  /** `DELAYS`: beats to wait at the start of each track. */
  const Delays: seq<int> := [14]
  /** `FFS`: seconds to skip at the start of each track. */
  const FastForwards: seq<int> := [30]

  /** An index into a table, None past its end. */
  function At(xs: seq<int>, i: nat): (r: Option<int>)
    ensures r.Some? <==> i < |xs|
    ensures r.Some? ==> r.value == xs[i]
  {
    if i < |xs| then Some(xs[i]) else None
  }

  /** A position clamped into [0, len], as `substring` does with its
      arguments. */
  function Clamp(k: int, len: nat): (c: nat)
    ensures c <= len
    ensures 0 <= k <= len ==> c == k
  {
    if k < 0 then 0 else if k > len then len else k
  }

  /** `String.prototype.substring`: both positions are clamped into the
      string and swapped when the start lies after the end. */
  function Substring(s: string, start: int, end: int): (r: string)
    ensures |r| <= |s|
    ensures 0 <= start <= end <= |s| ==> r == s[start..end]
  {
    var a := Clamp(start, |s|);
    var b := Clamp(end, |s|);
    if a <= b then s[a..b] else s[b..a]
  }

  /** The order of the two positions does not matter. */
  lemma {:induction false} SubstringSwap(s: string, start: int, end: int)
    ensures Substring(s, start, end) == Substring(s, end, start)
  {
  }

  predicate IsDigit(c: char) {
    '0' as int <= c as int <= '9' as int
  }

  /** The value of a decimal digit string. */
  function DigitsValue(s: string): (n: nat)
    requires forall k :: 0 <= k < |s| ==> IsDigit(s[k])
    ensures |s| == 0 ==> n == 0
  {
    if |s| == 0 then 0
    else
      assert IsDigit(s[|s| - 1]);
      DigitsValue(s[..|s| - 1]) * 10 + (s[|s| - 1] as int - '0' as int) as nat
  }

  /** `Number` on the strings it reads here: the empty string is 0, a string
      of decimal digits is its value, and anything else is NaN (None). */
  function ParseNumber(s: string): (r: Option<nat>)
    ensures r.None? <==> exists k :: 0 <= k < |s| && !IsDigit(s[k])
  {
    if forall k :: 0 <= k < |s| ==> IsDigit(s[k]) then Some(DigitsValue(s)) else None
  }

  /** The digit character of `d`. */
  function Digit(d: nat): (c: char)
    requires d < 10
    ensures IsDigit(c) && c as int - '0' as int == d
  {
    (d + '0' as nat) as char
  }

  /** A tempo below 1000 written with exactly three digits. */
  function ThreeDigits(bpm: nat): (s: string)
    requires bpm < 1000
    ensures |s| == 3 && forall k :: 0 <= k < 3 ==> IsDigit(s[k])
  {
    [Digit(bpm / 100), Digit(bpm / 10 % 10), Digit(bpm % 10)]
  }

  /** The file name of a track, in the form the song list expects. */
  function FileName(bpm: nat, title: string): (f: string)
    requires bpm < 1000
    ensures |f| == |title| + 10
  {
    ThreeDigits(bpm) + " - " + title + ".mp3"
  }

  /** The song entry for one file: `bpm` from its first three characters,
      `name` from character 6 up to the last four. */
  function SongOf(fullName: string, delay: Option<int>, fastForward: Option<int>): (song: Song)
    ensures song.fullName == fullName && song.delay == delay && song.fastForward == fastForward
    ensures |song.name| <= |fullName|
  {
    Song(ParseNumber(Substring(fullName, 0, 3)), Substring(fullName, 6, |fullName| - 4), fullName, delay, fastForward)
  }

  /** `listSongs` over the given tables: one entry per file, in order. */
  function SongsOf(files: seq<string>, delays: seq<int>, fastForwards: seq<int>): (songs: seq<Song>)
    ensures |songs| == |files|
    ensures forall i :: 0 <= i < |files| ==> songs[i] == SongOf(files[i], At(delays, i), At(fastForwards, i))
  {
    seq(|files|, i requires 0 <= i < |files| => SongOf(files[i], At(delays, i), At(fastForwards, i)))
  }

  /** `listSongs`. */
  function ListSongs(): (songs: seq<Song>)
    ensures |songs| == |Files|
    ensures forall i :: 0 <= i < |Files| ==> songs[i].fullName == Files[i] && songs[i].delay == Some(Delays[i]) && songs[i].fastForward == Some(FastForwards[i])
  {
    SongsOf(Files, Delays, FastForwards)
  }

  /** Three digits read back as the number they were written from. */
  lemma {:induction false} ThreeDigitsValue(bpm: nat)
    requires bpm < 1000
    ensures DigitsValue(ThreeDigits(bpm)) == bpm
  {
    var a, b, c := bpm / 100, bpm / 10 % 10, bpm % 10;
    assert bpm == (a * 10 + b) * 10 + c;
    var s := ThreeDigits(bpm);
    assert s[..2][..1] == [s[0]] && s[..3][..2] == s[..2] && s == s[..3];
    assert DigitsValue(s[..2][..1][..0]) == 0;
    assert DigitsValue(s[..1]) == a;
    assert DigitsValue(s[..2]) == a * 10 + b;
  }

  /** Parsing a well-formed file name gives back its tempo and title. */
  lemma {:induction false} SongOfFileName(bpm: nat, title: string, delay: Option<int>, fastForward: Option<int>)
    requires bpm < 1000
    ensures var song := SongOf(FileName(bpm, title), delay, fastForward);
            song.bpm == Some(bpm) && song.name == title
  {
    var f := FileName(bpm, title);
    assert f[..3] == ThreeDigits(bpm);
    assert f[6..|f| - 4] == title;
    ThreeDigitsValue(bpm);
  }

  /** The one file name starts with the tempo 100 in three digits. */
  lemma FileTempo()
    ensures |Files[0]| == 39 && Files[0][0] == '1' && Files[0][1] == '0' && Files[0][2] == '0'
  {
    var f := "100 - Rock the Party - Alexi Action.mp3";
    assert Files[0] == f;
  }

  /** A string starting with the three digits of `bpm` has them as its first
      three characters. */
  lemma {:induction false} StartsWithThreeDigits(f: string, bpm: nat)
    requires bpm < 1000 && |f| >= 3
    requires f[0] == Digit(bpm / 100) && f[1] == Digit(bpm / 10 % 10) && f[2] == Digit(bpm % 10)
    ensures f[..3] == ThreeDigits(bpm)
  {
  }

  /** The one file name holds the title "Rock the Party - Alexi Action"
      between the " - " after the tempo and the ".mp3". */
  lemma FileTitle()
    ensures |Files[0]| == 39 && Files[0][6..35] == "Rock the Party - Alexi Action"
  {
    var f := "100 - Rock the Party - Alexi Action.mp3";
    assert Files[0] == f;
    var t := "Rock the Party - Alexi Action";
    assert forall k :: 0 <= k < 29 ==> f[6 + k] == t[k];
  }

  /** The song list has one entry: 100 beats per minute, "Rock the Party -
      Alexi Action", a delay of 14 beats and a fast-forward of 30 seconds. */
  lemma ListSongsEntry()
    ensures ListSongs() == [Song(Some(100), "Rock the Party - Alexi Action", Files[0], Some(14), Some(30))]
  {
    FileTempo();
    StartsWithThreeDigits(Files[0], 100);
    FileTitle();
    ThreeDigitsValue(100);
    assert ListSongs()[0] == SongOf(Files[0], Some(14), Some(30));
  }
}
