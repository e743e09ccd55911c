/** The shell command that `convert_mp4` of audio.py hands to ffmpeg (running it is not
    modelled). */
module Audio {
  import opened Results
  import opened Text

  /** The fixed conversion options: 160k bit rate, two channels, 44.1 kHz, no video. */
  const Options: string := " -ab 160k -ac 2 -ar 44100 -vn "

  /** Everything before the output name. */
  function CommandHead(fname: string): string {
    "ffmpeg -i " + fname + Options
  }

  /** The default output name `fname[:-4] + '.wav'`. */
  function DefaultOutput(fname: string): (out: string)
    ensures EndsWith(out, ".wav")
    ensures |fname| <= 4 ==> out == ".wav"
    ensures |out| == if |fname| <= 4 then 4 else |fname|
    ensures |fname| > 4 ==> out[..|fname| - 4] == fname[..|fname| - 4]
  {
    EndsWithAppend(DropLast(fname, 4), ".wav");
    DropLast(fname, 4) + ".wav"
  }

  /** `convert_mp4(fname, outname)`'s command string. */
  function ConvertCommand(fname: string, outname: Option<string>): (command: string)
    ensures StartsWith(command, "ffmpeg -i " + fname)
    ensures StartsWith(command[|"ffmpeg -i " + fname|..], Options)
    ensures |CommandHead(fname)| <= |command| && command[|CommandHead(fname)|..] == if outname.Some? then outname.value else DefaultOutput(fname)
  {
    var pre := "ffmpeg -i " + fname;
    var out := if outname.None? then DefaultOutput(fname) else outname.value;
    var tail := Options + out;
    assert CommandHead(fname) + out == pre + tail;
    assert (pre + tail)[..|pre|] == pre;
    assert (pre + tail)[|pre|..] == tail && tail[..|Options|] == Options;
    assert (pre + tail)[|CommandHead(fname)|..] == tail[|Options|..] == out;
    pre + tail
  }

  /** A `.mp4` file converts to the `.wav` file of the same base name. */
  lemma {:induction false} Mp4BecomesWav(base: string)
    ensures ConvertCommand(base + ".mp4", None) == CommandHead(base + ".mp4") + base + ".wav"
  {
    assert DropLast(base + ".mp4", 4) == base;
  }

  /** Different output names give different commands: the output name is not lost. */
  lemma {:induction false} CommandDeterminesOutput(fname: string, a: Option<string>, b: Option<string>)
    requires ConvertCommand(fname, a) == ConvertCommand(fname, b)
    ensures (if a.Some? then a.value else DefaultOutput(fname)) == (if b.Some? then b.value else DefaultOutput(fname))
  {
  }
}
