/** The two command builders of utils.py: `generate_command` (the mencoder
    recording command) and `generate_mplayer_command` (the mplayer preview
    command). Each is a method that grows its argument list step by step, as
    the source does, proved equal to a specification function that lists the
    arguments block by block; the lemmas state what the blocks mean. */
module Commands {
  import opened Text
  import opened Filename

  /** The dictionary `get_params_from_gui` hands to the builders. Text fields
      hold a widget's text (`""` when empty, which Python reads as false);
      check boxes are booleans. */
  datatype Params = Params(
    channelType: string, channel: string, frequency: string, duration: string,
    driver: string, device: string, norm: string, input: string, chanlist: string,
    audiocodec: string, videocodec: string, appendSuffix: bool,
    lavcAudiocodec: string, lavcAudiobitrate: string, lameAudiobitrate: string,
    lavcVideocodec: string, lavcVideobitrate: string,
    tvwidth: string, tvheight: string, audiorate: string, alsaAudio: bool, adevice: string,
    brightness: string, contrast: string, hue: string, saturation: string,
    extratvparms: string, scaleheight: string, scalewidth: string, ofps: string,
    noskip: bool, quiet: bool, extrafilters: string, extramencoderparms: string,
    outputfile: string, channelText: string)

  /** What `generate_command` returns: the argument list, or with
      `preview=True` the same list joined by spaces for display. */
  datatype Command = Args(args: seq<string>) | Line(text: string)

  // ---------------------------------------------------------------------------
  // the -tv clause, shared by both builders
  // ---------------------------------------------------------------------------

  /** `[key + value]` when the value is set, nothing otherwise. */
  function Opt(key: string, value: string): seq<string>
  {
    if value != "" then [key + value] else []
  }

  /** The six items every `-tv` clause starts with; the norm key depends on
      the driver. */
  function TvHead(p: Params): seq<string>
  {
    [if p.channelType == "frequency" then "freq=" + p.frequency else "channel=" + p.channel,
     "driver=" + p.driver,
     "device=" + p.device,
     (if p.driver == "v4l2" then "normid=" else "norm=") + p.norm,
     "input=" + p.input,
     "chanlist=" + p.chanlist]
  }

  /** The capture size, only when both width and height are set. */
  function SizeItems(p: Params): seq<string>
  {
    if p.tvwidth != "" && p.tvheight != "" then ["width=" + p.tvwidth, "height=" + p.tvheight] else []
  }

  /** `alsa`, then the ALSA device when one is given; only with ALSA audio on. */
  function AlsaItems(p: Params): seq<string>
  {
    if p.alsaAudio then ["alsa"] + Opt("adevice=", p.adevice) else []
  }

  /** Capture size, audio rate and ALSA items. */
  function TvCapture(p: Params): seq<string>
  {
    SizeItems(p) + Opt("audiorate=", p.audiorate) + AlsaItems(p)
  }

  /** The free-form extra text, as one item, when set. */
  function ExtraTvItems(p: Params): seq<string>
  {
    if p.extratvparms != "" then [p.extratvparms] else []
  }

  /** Picture items and the free-form extra text. */
  function TvPicture(p: Params): seq<string>
  {
    Opt("brightness=", p.brightness) + Opt("contrast=", p.contrast)
    + Opt("hue=", p.hue) + Opt("saturation=", p.saturation) + ExtraTvItems(p)
  }

  /** The items of the `-tv` clause, in order. */
  function TvItems(p: Params): seq<string>
  {
    TvHead(p) + TvCapture(p) + TvPicture(p)
  }

  /** The `-tv` clause: its items joined by `:`. */
  function TvClause(p: Params): string
  {
    Join(TvItems(p), ":")
  }

  /** Appends one item to a clause that joins `items`. */
  lemma AppendItem(tv: string, items: seq<string>, x: string)
    requires |items| >= 1 && tv == Join(items, ":")
    ensures tv + ":" + x == Join(items + [x], ":")
  {
    JoinSnoc(items, x, ":");
  }

  /** The `tvparms += ...` steps of both builders (the two copies in the
      source are identical). */
  method BuildTvClause(p: Params) returns (tv: string)
    ensures tv == TvClause(p)
  {
    tv := StartTvClause(p);
    tv := AddCaptureItems(p, tv);
    tv := AddPictureItems(p, tv);
  }

  method StartTvClause(p: Params) returns (tv: string)
    ensures tv == Join(TvHead(p), ":")
  {
    if p.channelType == "frequency" {
      tv := "freq=" + p.frequency;
    } else {
      tv := "channel=" + p.channel;
    }
    ghost var items := [tv];
    AppendItem(tv, items, "driver=" + p.driver);
    tv, items := tv + ":" + ("driver=" + p.driver), items + ["driver=" + p.driver];
    AppendItem(tv, items, "device=" + p.device);
    tv, items := tv + ":" + ("device=" + p.device), items + ["device=" + p.device];
    var norm := if p.driver == "v4l2" then "normid=" + p.norm else "norm=" + p.norm;
    AppendItem(tv, items, norm);
    tv, items := tv + ":" + norm, items + [norm];
    AppendItem(tv, items, "input=" + p.input);
    tv, items := tv + ":" + ("input=" + p.input), items + ["input=" + p.input];
    AppendItem(tv, items, "chanlist=" + p.chanlist);
    tv, items := tv + ":" + ("chanlist=" + p.chanlist), items + ["chanlist=" + p.chanlist];
    assert items == TvHead(p);
  }

  /** The capture items after the head: the size, `audiorate=`, then the
      ALSA items, each appended only under its condition. */
  method AddCaptureItems(p: Params, tv0: string) returns (tv: string)
    requires tv0 == Join(TvHead(p), ":")
    ensures tv == Join(TvHead(p) + TvCapture(p), ":")
  {
    ghost var items := TvHead(p);
    tv := AppendSizeItems(p, tv0, items);
    items := items + SizeItems(p);
    tv := AppendIfSet(tv, items, "audiorate=", p.audiorate);
    items := items + Opt("audiorate=", p.audiorate);
    tv := AppendAlsaItems(p, tv, items);
    items := items + AlsaItems(p);
    Regroup4(TvHead(p), SizeItems(p), Opt("audiorate=", p.audiorate), AlsaItems(p));
  }

  /** `width=` and `height=`, appended together when both are set. */
  method AppendSizeItems(p: Params, tv0: string, ghost items: seq<string>) returns (tv: string)
    requires |items| >= 1 && tv0 == Join(items, ":")
    ensures tv == Join(items + SizeItems(p), ":")
  {
    tv := tv0;
    if p.tvwidth != "" && p.tvheight != "" {
      AppendItem(tv, items, "width=" + p.tvwidth);
      tv := tv + ":" + ("width=" + p.tvwidth);
      AppendItem(tv, items + ["width=" + p.tvwidth], "height=" + p.tvheight);
      tv := tv + ":" + ("height=" + p.tvheight);
      assert items + ["width=" + p.tvwidth] + ["height=" + p.tvheight] == items + SizeItems(p);
    } else {
      assert items + SizeItems(p) == items;
    }
  }

  /** `alsa` and the optional `adevice=`, appended when ALSA audio is on. */
  method AppendAlsaItems(p: Params, tv0: string, ghost items: seq<string>) returns (tv: string)
    requires |items| >= 1 && tv0 == Join(items, ":")
    ensures tv == Join(items + AlsaItems(p), ":")
  {
    tv := tv0;
    if p.alsaAudio {
      AppendItem(tv, items, "alsa");
      tv := tv + ":" + "alsa";
      tv := AppendIfSet(tv, items + ["alsa"], "adevice=", p.adevice);
      assert items + ["alsa"] + Opt("adevice=", p.adevice) == items + AlsaItems(p);
    } else {
      assert items + AlsaItems(p) == items;
    }
  }

  /** `if value: tvparms += ':' + key + value`. */
  method AppendIfSet(tv0: string, ghost items: seq<string>, key: string, value: string)
    returns (tv: string)
    requires |items| >= 1 && tv0 == Join(items, ":")
    ensures tv == Join(items + Opt(key, value), ":")
  {
    tv := tv0;
    if value != "" {
      AppendItem(tv, items, key + value);
      tv := tv + ":" + (key + value);
    } else {
      assert items + Opt(key, value) == items;
    }
  }

  method AddPictureItems(p: Params, tv0: string) returns (tv: string)
    requires tv0 == Join(TvHead(p) + TvCapture(p), ":")
    ensures tv == TvClause(p)
  {
    ghost var front := TvHead(p) + TvCapture(p);
    ghost var items := front;
    tv := AppendIfSet(tv0, items, "brightness=", p.brightness);
    items := items + Opt("brightness=", p.brightness);
    tv := AppendIfSet(tv, items, "contrast=", p.contrast);
    items := items + Opt("contrast=", p.contrast);
    tv := AppendIfSet(tv, items, "hue=", p.hue);
    items := items + Opt("hue=", p.hue);
    tv := AppendIfSet(tv, items, "saturation=", p.saturation);
    items := items + Opt("saturation=", p.saturation);
    if p.extratvparms != "" {
      AppendItem(tv, items, p.extratvparms);
      tv := tv + ":" + p.extratvparms;
    } else {
      assert items + ExtraTvItems(p) == items;
    }
    Regroup6(front, Opt("brightness=", p.brightness), Opt("contrast=", p.contrast),
            Opt("hue=", p.hue), Opt("saturation=", p.saturation), ExtraTvItems(p));
  }

  /** Appending three blocks one by one is appending their concatenation. */
  lemma Regroup4<T>(a: seq<T>, b: seq<T>, c: seq<T>, d: seq<T>)
    ensures a + b + c + d == a + (b + c + d)
  {
  }

  /** Appending five blocks one by one is appending their concatenation. */
  lemma Regroup6<T>(a: seq<T>, b: seq<T>, c: seq<T>, d: seq<T>, e: seq<T>, f: seq<T>)
    ensures a + b + c + d + e + f == a + (b + c + d + e + f)
  {
  }

  // ---------------------------------------------------------------------------
  // generate_command
  // ---------------------------------------------------------------------------

  /** The codec block: `-nosound` for the `none` audio codec, `-oac <codec>`
      otherwise; then `-ovc <codec>` always. */
  function CodecArgs(p: Params): seq<string>
  {
    (if p.audiocodec == "none" then ["-nosound"] else ["-oac", p.audiocodec])
    + ["-ovc", p.videocodec]
  }

  /** A flag and its value, only when the value is set. */
  function Optional(flag: string, value: string): seq<string>
  {
    if value != "" then [flag, value] else []
  }

  /** `-noskip` and `-quiet`, each only when set. */
  function Switches(noskip: bool, quiet: bool): seq<string>
  {
    (if noskip then ["-noskip"] else []) + (if quiet then ["-quiet"] else [])
  }

  /** `-endpos`, `-ofps`, `-noskip`, `-quiet`, each only when set. */
  function OptionArgs(p: Params): seq<string>
  {
    Optional("-endpos", p.duration) + Optional("-ofps", p.ofps) + Switches(p.noskip, p.quiet)
  }

  /** The filters of `-vf`: the extra filters, then a scale filter whenever a
      scale height is given (even without a width). */
  function Filters(p: Params): seq<string>
  {
    (if p.extrafilters != "" then [p.extrafilters] else [])
    + (if p.scaleheight != "" then ["scale=" + p.scalewidth + ":" + p.scaleheight] else [])
  }

  /** The `-vf` block, shared by both builders. */
  function FilterArgs(p: Params): seq<string>
  {
    if p.extrafilters != "" || (p.scalewidth != "" && p.scaleheight != "")
    then ["-vf", Join(Filters(p), ",")]
    else []
  }

  /** The `-lavcopts` entries, in the fixed order acodec, abitrate, vcodec,
      vbitrate. */
  function LavcOpts(p: Params): seq<string>
  {
    Opt("acodec=", p.lavcAudiocodec) + Opt("abitrate=", p.lavcAudiobitrate)
    + Opt("vcodec=", p.lavcVideocodec) + Opt("vbitrate=", p.lavcVideobitrate)
  }

  function LavcArgs(p: Params): seq<string>
  {
    if p.lavcAudiocodec != "" || p.lavcAudiobitrate != "" || p.lavcVideobitrate != "" || p.lavcVideocodec != ""
    then ["-lavcopts", Join(LavcOpts(p), ":")]
    else []
  }

  function LameArgs(p: Params): seq<string>
  {
    if p.lameAudiobitrate != "" then ["-lameopts", "cbr:br=" + p.lameAudiobitrate] else []
  }

  /** `extramencoderparms.split(' ')`: one argument per piece between single
      spaces, empty pieces included. */
  function ExtraArgs(p: Params): seq<string>
  {
    if p.extramencoderparms != "" then Split(p.extramencoderparms, ' ') else []
  }

  /** The `-lavcopts` and `-lameopts` blocks. */
  function EncoderArgs(p: Params): seq<string>
  {
    LavcArgs(p) + LameArgs(p)
  }

  /** The program, the source and the `-tv` clause. */
  function MencoderHead(p: Params): seq<string>
  {
    ["mencoder", "tv://", "-tv", TvClause(p)]
  }

  /** The blocks between the `-tv` clause and the extra parameters. */
  function MencoderMiddle(p: Params): seq<string>
  {
    CodecArgs(p) + OptionArgs(p) + FilterArgs(p) + EncoderArgs(p)
  }

  /** The arguments `generate_command` passes to mencoder for output file `file`. */
  function MencoderArgs(p: Params, file: string): seq<string>
  {
    MencoderHead(p) + MencoderMiddle(p) + ExtraArgs(p) + ["-o", file]
  }

  /** The output of `generate_command` for output file `file`. */
  function MencoderCommand(p: Params, file: string, preview: bool): Command
  {
    if preview then Line(Join(MencoderArgs(p, file), " ")) else Args(MencoderArgs(p, file))
  }

  /** The codec block of `generate_command`. */
  method BuildCodecArgs(p: Params) returns (block: seq<string>)
    ensures block == CodecArgs(p)
  {
    if p.audiocodec == "none" {
      block := ["-nosound"];
    } else {
      block := ["-oac", p.audiocodec];
    }
    block := block + ["-ovc", p.videocodec];
  }

  /** The `-endpos`/`-ofps`/`-noskip`/`-quiet` block of `generate_command`. */
  method BuildOptionArgs(p: Params) returns (block: seq<string>)
    ensures block == OptionArgs(p)
  {
    block := [];
    if p.duration != "" {
      block := block + ["-endpos", p.duration];
    }
    if p.ofps != "" {
      block := block + ["-ofps", p.ofps];
    }
    if p.noskip {
      block := block + ["-noskip"];
    }
    if p.quiet {
      block := block + ["-quiet"];
    }
  }

  /** The `-vf` block, built the same way by both command builders. */
  method BuildFilterArgs(p: Params) returns (block: seq<string>)
    ensures block == FilterArgs(p)
  {
    block := [];
    if p.extrafilters != "" || (p.scalewidth != "" && p.scaleheight != "") {
      var filters := [];
      if p.extrafilters != "" {
        filters := filters + [p.extrafilters];
      }
      if p.scaleheight != "" {
        filters := filters + ["scale=" + p.scalewidth + ":" + p.scaleheight];
      }
      block := ["-vf", Join(filters, ",")];
    }
  }

  /** The `-lavcopts` and `-lameopts` blocks of `generate_command`. */
  method BuildEncoderArgs(p: Params) returns (block: seq<string>)
    ensures block == EncoderArgs(p)
  {
    block := [];
    if p.lavcAudiocodec != "" || p.lavcAudiobitrate != "" || p.lavcVideobitrate != "" || p.lavcVideocodec != "" {
      var lavcopts := [];
      if p.lavcAudiocodec != "" {
        lavcopts := lavcopts + ["acodec=" + p.lavcAudiocodec];
      }
      if p.lavcAudiobitrate != "" {
        lavcopts := lavcopts + ["abitrate=" + p.lavcAudiobitrate];
      }
      if p.lavcVideocodec != "" {
        lavcopts := lavcopts + ["vcodec=" + p.lavcVideocodec];
      }
      if p.lavcVideobitrate != "" {
        lavcopts := lavcopts + ["vbitrate=" + p.lavcVideobitrate];
      }
      assert lavcopts == LavcOpts(p);
      block := ["-lavcopts", Join(lavcopts, ":")];
    }
    if p.lameAudiobitrate != "" {
      block := block + ["-lameopts", "cbr:br=" + p.lameAudiobitrate];
    }
  }

  /** Appends the pieces of the extra mencoder parameters one at a time. */
  method AppendExtraArgs(p: Params, parms0: seq<string>) returns (parms: seq<string>)
    ensures parms == parms0 + ExtraArgs(p)
  {
    parms := parms0;
    if p.extramencoderparms != "" {
      var pieces := Split(p.extramencoderparms, ' ');
      var i := 0;
      while i < |pieces|
        invariant 0 <= i <= |pieces|
        invariant parms == parms0 + pieces[..i]
      {
        parms := parms + [pieces[i]];
        i := i + 1;
      }
      assert pieces[..i] == pieces;
    }
  }

  /** `generate_command`: resolve the output file name, then append the
      argument blocks one after another. */
  method GenerateCommand(p: Params, now: DateTime, existing: set<string>, preview: bool)
    returns (command: Command)
    ensures command == MencoderCommand(p, MadeFilename(p.outputfile, p.channelText, now, existing, p.appendSuffix), preview)
  {
    var outputfile := MakeFilename(p.outputfile, p.channelText, now, existing, p.appendSuffix);
    var tvparms := BuildTvClause(p);
    var codecs := BuildCodecArgs(p);
    var options := BuildOptionArgs(p);
    var filters := BuildFilterArgs(p);
    var encoders := BuildEncoderArgs(p);
    var cmd := ["mencoder", "tv://", "-tv", tvparms];
    cmd := cmd + (codecs + options + filters + encoders);
    cmd := AppendExtraArgs(p, cmd);
    cmd := cmd + ["-o", outputfile];
    assert cmd == MencoderArgs(p, outputfile);
    if preview {
      command := Line(Join(cmd, " "));
    } else {
      command := Args(cmd);
    }
  }

  // ---------------------------------------------------------------------------
  // generate_mplayer_command
  // ---------------------------------------------------------------------------

  /** The arguments of the mplayer preview: same `-tv` clause and `-vf` block
      as the recording, an optional `-fps`, and always `-quiet`. */
  function MplayerArgs(p: Params): seq<string>
  {
    ["mplayer", "-slave", "tv://", "-tv", TvClause(p)]
    + Optional("-fps", p.ofps) + ["-quiet"] + FilterArgs(p)
  }

  method GenerateMplayerCommand(p: Params) returns (cmd: seq<string>)
    ensures cmd == MplayerArgs(p)
  {
    var tvparms := BuildTvClause(p);
    var parms := ["-tv", tvparms];
    if p.ofps != "" {
      parms := parms + ["-fps", p.ofps];
    }
    parms := parms + ["-quiet"];
    var filters := BuildFilterArgs(p);
    parms := parms + filters;
    cmd := ["mplayer", "-slave", "tv://"] + parms;
  }

  // ---------------------------------------------------------------------------
  // what the commands mean
  // ---------------------------------------------------------------------------

  /** No item of the `-tv` clause contains the `:` separator. */
  predicate ColonFreeItems(p: Params)
  {
    forall i :: 0 <= i < |TvItems(p)| ==> ':' !in TvItems(p)[i]
  }

  /** Reading the `-tv` clause back: when no item contains `:`, splitting the
      clause at `:` recovers its items. */
  lemma TvClauseRoundTrip(p: Params)
    requires ColonFreeItems(p)
    ensures Split(TvClause(p), ':') == TvItems(p)
  {
    SplitJoin(TvItems(p), ':');
  }

  /** The six leading items: the clause starts `freq=` exactly for the
      `frequency` channel type and uses `normid=` exactly for `v4l2`. */
  lemma TvHeadItems(p: Params)
    ensures |TvItems(p)| >= 6 && TvItems(p)[..6] == TvHead(p)
    ensures p.channelType == "frequency" <==> StartsWith(TvItems(p)[0], "freq=")
    ensures p.channelType == "frequency" ==> TvItems(p)[0] == "freq=" + p.frequency
    ensures p.channelType != "frequency" ==> TvItems(p)[0] == "channel=" + p.channel
    ensures TvItems(p)[1..3] == ["driver=" + p.driver, "device=" + p.device]
    ensures p.driver == "v4l2" <==> StartsWith(TvItems(p)[3], "normid=")
    ensures p.driver == "v4l2" ==> TvItems(p)[3] == "normid=" + p.norm
    ensures p.driver != "v4l2" ==> TvItems(p)[3] == "norm=" + p.norm
    ensures TvItems(p)[4..6] == ["input=" + p.input, "chanlist=" + p.chanlist]
  {
    var items := TvItems(p);
    assert items[..6] == TvHead(p);
    if p.channelType != "frequency" {
      assert items[0][0] == 'c' != "freq="[0];
    }
    if p.driver != "v4l2" {
      if |items[3]| >= 7 {
        assert items[3][4] == '=' != "normid="[4];
      }
    }
  }

  /** The clause starts with its first item followed by `:`. */
  lemma TvClauseStart(p: Params)
    ensures |TvClause(p)| > |TvItems(p)[0]| && TvClause(p)[..|TvItems(p)[0]| + 1] == TvItems(p)[0] + ":"
  {
    var items := TvItems(p);
    assert items == [items[0]] + items[1..];
    JoinAppend([items[0]], items[1..], ":");
  }

  /** `width=`/`height=` appear only as a pair, first among the capture
      items, and only when both sizes are set. */
  lemma TvCaptureSize(p: Params)
    ensures "width=" + p.tvwidth in TvCapture(p) <==> p.tvwidth != "" && p.tvheight != ""
    ensures "height=" + p.tvheight in TvCapture(p) <==> p.tvwidth != "" && p.tvheight != ""
    ensures p.tvwidth != "" && p.tvheight != "" ==> TvCapture(p)[..2] == ["width=" + p.tvwidth, "height=" + p.tvheight]
  {
    var rate := Opt("audiorate=", p.audiorate);
    var alsa := if p.alsaAudio then ["alsa"] + Opt("adevice=", p.adevice) else [];
    if !(p.tvwidth != "" && p.tvheight != "") {
      assert TvCapture(p) == rate + alsa;
      assert forall x :: x in rate + alsa ==> x[0] == 'a';
      assert ("width=" + p.tvwidth)[0] == 'w';
      assert ("height=" + p.tvheight)[0] == 'h';
    }
  }

  /** `adevice=` is only ever placed right after `alsa`, and only when ALSA
      audio is on and a device is given. */
  lemma TvCaptureAlsa(p: Params)
    ensures forall i :: 0 <= i < |TvCapture(p)| && StartsWith(TvCapture(p)[i], "adevice=") ==>
              0 < i && TvCapture(p)[i - 1] == "alsa" && p.alsaAudio && p.adevice != ""
  {
    var front := (if p.tvwidth != "" && p.tvheight != "" then ["width=" + p.tvwidth, "height=" + p.tvheight] else [])
      + Opt("audiorate=", p.audiorate);
    var alsa := if p.alsaAudio then ["alsa"] + Opt("adevice=", p.adevice) else [];
    var c := TvCapture(p);
    assert c == front + alsa;
    assert forall k :: 0 <= k < |front| ==> front[k][1] in "ieu";
    forall i | 0 <= i < |c| && StartsWith(c[i], "adevice=")
      ensures 0 < i && c[i - 1] == "alsa" && p.alsaAudio && p.adevice != ""
    {
      assert c[i][..8] == "adevice=";
      assert c[i][1] == 'd' && |c[i]| >= 8;
      assert forall k :: |front| <= k < |c| ==> c[k] == alsa[k - |front|];
      assert forall k :: 0 <= k < |front| ==> c[k] == front[k];
      assert |alsa| >= 1 ==> alsa[0] == "alsa";
    }
  }

  /** The audio sentinel: `-nosound` takes the place of `-oac <codec>`
      exactly when the audio codec is `none`; `-ovc <codec>` follows
      either way. Positions are those in the mencoder list, after the
      four-argument head. */
  lemma MencoderCodecs(p: Params, file: string)
    ensures var a := MencoderArgs(p, file);
      |a| >= 7
      && (p.audiocodec == "none" <==> a[4] == "-nosound")
      && (p.audiocodec != "none" ==> a[4..6] == ["-oac", p.audiocodec] && a[6..8] == ["-ovc", p.videocodec])
      && (p.audiocodec == "none" ==> a[5..7] == ["-ovc", p.videocodec])
  {
    var c := CodecArgs(p);
    MiddleStart(MencoderHead(p), c, OptionArgs(p), FilterArgs(p), EncoderArgs(p), ExtraArgs(p), ["-o", file]);
    var a := MencoderArgs(p, file);
    assert a[4..4 + |c|] == c;
    if p.audiocodec == "none" {
      assert a[4] == c[0] && a[5..7] == c[1..3];
    } else {
      assert a[4..6] == c[..2] && a[6..8] == c[2..4];
    }
  }

  /** The first block of the middle part of a four-part concatenation sits
      right after the head. */
  lemma MiddleStart<T>(h: seq<T>, c: seq<T>, o: seq<T>, f: seq<T>, n: seq<T>, x: seq<T>, t: seq<T>)
    ensures var s := h + (c + o + f + n) + x + t;
      |s| >= |h| + |c| && s[|h|..|h| + |c|] == c
  {
    var s := h + (c + o + f + n) + x + t;
    assert s[|h|..|h| + |c|] == (c + o + f + n)[..|c|];
  }

  /** A value that cannot be mistaken for one of the optional flags. */
  predicate NotOptionFlag(v: string)
  {
    v != "-endpos" && v != "-ofps" && v != "-noskip" && v != "-quiet"
  }

  /** Each optional flag is present exactly when its parameter is set
      (provided the duration and frame-rate values are not themselves
      flags), and its value follows it. */
  lemma OptionFlags(p: Params)
    requires NotOptionFlag(p.duration) && NotOptionFlag(p.ofps)
    ensures "-endpos" in OptionArgs(p) <==> p.duration != ""
    ensures "-ofps" in OptionArgs(p) <==> p.ofps != ""
    ensures "-noskip" in OptionArgs(p) <==> p.noskip
    ensures "-quiet" in OptionArgs(p) <==> p.quiet
  {
    var d := Optional("-endpos", p.duration);
    var o := Optional("-ofps", p.ofps);
    var s := Switches(p.noskip, p.quiet);
    InBlocks("-endpos", d, o, s);
    InBlocks("-ofps", d, o, s);
    InBlocks("-noskip", d, o, s);
    InBlocks("-quiet", d, o, s);
    SwitchesIn(p.noskip, p.quiet);
    FlagIn("-endpos", p.duration, "-ofps", p.ofps, s);
    FlagIn("-ofps", p.ofps, "-endpos", p.duration, s);
  }

  /** The values of `-endpos` and `-ofps` follow their flags, `-endpos`
      first. */
  lemma OptionValues(p: Params)
    ensures p.duration != "" ==> OptionArgs(p)[..2] == ["-endpos", p.duration]
    ensures var at := if p.duration != "" then 2 else 0;
      p.ofps != "" ==> |OptionArgs(p)| >= at + 2 && OptionArgs(p)[at..at + 2] == ["-ofps", p.ofps]
  {
    FlagBlocks(Optional("-endpos", p.duration), Optional("-ofps", p.ofps), Switches(p.noskip, p.quiet),
               "-endpos", p.duration, "-ofps", p.ofps);
  }

  /** An item is in three blocks exactly when it is in one of them. */
  lemma InBlocks(x: string, d: seq<string>, o: seq<string>, rest: seq<string>)
    ensures x in d + o + rest <==> x in d || x in o || x in rest
  {
  }

  /** Two optional flag-value pairs followed by further items: where each
      value sits. */
  lemma FlagBlocks(d: seq<string>, o: seq<string>, rest: seq<string>,
                   f1: string, v1: string, f2: string, v2: string)
    requires d == [] || d == [f1, v1]
    requires o == [] || o == [f2, v2]
    ensures d != [] ==> (d + o + rest)[..2] == [f1, v1]
    ensures o != [] ==> |d + o + rest| >= |d| + 2 && (d + o + rest)[|d|..|d| + 2] == [f2, v2]
  {
  }

  /** A flag is among its own optional pair exactly when its value is set,
      and never among the other optional pair or the switches. */
  lemma FlagIn(flag: string, value: string, other: string, otherValue: string, switches: seq<string>)
    requires (flag == "-endpos" && other == "-ofps") || (flag == "-ofps" && other == "-endpos")
    requires NotOptionFlag(value) && NotOptionFlag(otherValue)
    requires forall x :: x in switches ==> x == "-noskip" || x == "-quiet"
    ensures flag in Optional(flag, value) <==> value != ""
    ensures flag !in Optional(other, otherValue)
    ensures flag !in switches
  {
    assert "-endpos"[1] != "-noskip"[1];
  }

  /** The two switches, `-noskip` and `-quiet`, each present exactly when set. */
  lemma SwitchesIn(noskip: bool, quiet: bool)
    ensures var s := Switches(noskip, quiet);
      ("-noskip" in s <==> noskip) && ("-quiet" in s <==> quiet)
      && "-endpos" !in s && "-ofps" !in s
      && (forall x :: x in s ==> x == "-noskip" || x == "-quiet")
  {
    assert "-endpos"[1] != "-noskip"[1];
  }

  /** The `-vf` rule: the block is emitted exactly when there are extra
      filters or both scale sizes; its value lists the extra filters, then a
      scale filter for any given scale height. */
  lemma FilterRule(p: Params)
    ensures FilterArgs(p) != [] <==> p.extrafilters != "" || (p.scalewidth != "" && p.scaleheight != "")
    ensures FilterArgs(p) != [] ==> FilterArgs(p)[0] == "-vf" && |FilterArgs(p)| == 2
    ensures p.extrafilters != "" && p.scaleheight != "" ==>
      FilterArgs(p) == ["-vf", p.extrafilters + "," + "scale=" + p.scalewidth + ":" + p.scaleheight]
    ensures p.extrafilters != "" && p.scaleheight == "" ==> FilterArgs(p) == ["-vf", p.extrafilters]
    ensures p.extrafilters == "" && p.scalewidth != "" && p.scaleheight != "" ==>
      FilterArgs(p) == ["-vf", "scale=" + p.scalewidth + ":" + p.scaleheight]
  {
    if p.extrafilters != "" && p.scaleheight != "" {
      assert Filters(p) == [p.extrafilters, "scale=" + p.scalewidth + ":" + p.scaleheight];
      assert Filters(p)[1..] == ["scale=" + p.scalewidth + ":" + p.scaleheight];
      var scale := "scale=" + p.scalewidth + ":" + p.scaleheight;
      assert Join(Filters(p), ",") == p.extrafilters + "," + scale;
      assert p.extrafilters + "," + scale == p.extrafilters + "," + "scale=" + p.scalewidth + ":" + p.scaleheight;
    }
  }

  /** A scale height without a width still yields a scale filter, with an
      empty width, once there are extra filters; without extra filters the
      lone height is dropped. */
  lemma ScaleHeightOnly(p: Params)
    requires p.scalewidth == "" && p.scaleheight != ""
    ensures p.extrafilters != "" ==> FilterArgs(p) == ["-vf", p.extrafilters + ",scale=:" + p.scaleheight]
    ensures p.extrafilters == "" ==> FilterArgs(p) == []
  {
    FilterRule(p);
    assert p.extrafilters + "," + "scale=" + p.scalewidth + ":" + p.scaleheight
      == p.extrafilters + ",scale=:" + p.scaleheight;
  }

  /** The `-lavcopts` rule: emitted exactly when one of the four fields is
      set; when no value contains `:`, its value splits back into the set
      entries in the order acodec, abitrate, vcodec, vbitrate. `-lameopts`
      is emitted exactly for a lame bitrate, as a constant bit rate. */
  lemma LavcRule(p: Params)
    ensures LavcArgs(p) != [] <==> p.lavcAudiocodec != "" || p.lavcAudiobitrate != "" || p.lavcVideocodec != "" || p.lavcVideobitrate != ""
    ensures |LavcOpts(p)| == (if p.lavcAudiocodec != "" then 1 else 0) + (if p.lavcAudiobitrate != "" then 1 else 0)
                             + (if p.lavcVideocodec != "" then 1 else 0) + (if p.lavcVideobitrate != "" then 1 else 0)
    ensures LavcArgs(p) != [] && ':' !in p.lavcAudiocodec && ':' !in p.lavcAudiobitrate
            && ':' !in p.lavcVideocodec && ':' !in p.lavcVideobitrate ==>
      LavcArgs(p)[0] == "-lavcopts" && Split(LavcArgs(p)[1], ':') == LavcOpts(p)
    ensures LameArgs(p) != [] <==> p.lameAudiobitrate != ""
    ensures LameArgs(p) != [] ==> LameArgs(p) == ["-lameopts", "cbr:br=" + p.lameAudiobitrate]
  {
    var opts := LavcOpts(p);
    if LavcArgs(p) != [] && ':' !in p.lavcAudiocodec && ':' !in p.lavcAudiobitrate
       && ':' !in p.lavcVideocodec && ':' !in p.lavcVideobitrate {
      assert forall x :: x in opts ==> ':' !in x;
      SplitJoin(opts, ':');
    }
  }

  /** The mencoder list always starts with the program, the `tv://` source
      and the `-tv` clause, always ends with `-o <file>`, and right before
      that come the pieces of the extra parameters, which join back to the
      extra parameter text. */
  lemma MencoderShape(p: Params, file: string)
    ensures var a := MencoderArgs(p, file);
      var e := ExtraArgs(p);
      |a| >= 8 + |e|
      && a[..4] == ["mencoder", "tv://", "-tv", TvClause(p)]
      && a[|a| - 2..] == ["-o", file]
      && a[|a| - 2 - |e|..|a| - 2] == e
      && (p.extramencoderparms != "" ==> |e| >= 1 && Join(e, " ") == p.extramencoderparms)
  {
    MiddleLength(p);
    Slices(MencoderHead(p), MencoderMiddle(p), ExtraArgs(p), ["-o", file]);
    if p.extramencoderparms != "" {
      JoinSplit(p.extramencoderparms, ' ');
    }
  }

  /** The middle part holds at least the two codec arguments. */
  lemma MiddleLength(p: Params)
    ensures |MencoderMiddle(p)| >= 2
  {
    assert |CodecArgs(p)| >= 2;
  }

  /** Where the four parts of a concatenation sit. */
  lemma Slices<T>(a: seq<T>, b: seq<T>, c: seq<T>, d: seq<T>)
    ensures var s := a + b + c + d;
      s[..|a|] == a && s[|s| - |d|..] == d && s[|s| - |d| - |c|..|s| - |d|] == c
  {
  }

  /** A join around a non-empty middle starts with the joined head and a
      separator and ends with a separator and the joined tail. */
  lemma JoinAround(head: seq<string>, mid: seq<string>, tail: seq<string>, sep: string)
    requires |head| >= 1 && |mid| >= 1 && |tail| >= 1
    ensures var text := Join(head + mid + tail, sep);
      var start := Join(head, sep) + sep;
      var end := sep + Join(tail, sep);
      |start| + |end| <= |text| && text[..|start|] == start && text[|text| - |end|..] == end
  {
    JoinAppend(head, mid, sep);
    JoinAppend(head + mid, tail, sep);
    var text := Join(head + mid + tail, sep);
    assert text == Join(head, sep) + sep + Join(mid, sep) + (sep + Join(tail, sep));
  }

  lemma JoinMencoderHead(tv: string)
    ensures Join(["mencoder", "tv://", "-tv", tv], " ") == "mencoder tv:// -tv " + tv
  {
    var head := ["mencoder", "tv://", "-tv", tv];
    assert head[1..][1..][1..] == [tv];
    assert Join(head[1..][1..], " ") == "-tv" + " " + tv;
    assert Join(head[1..], " ") == "tv://" + " " + ("-tv" + " " + tv);
    assert "mencoder" + " " + ("tv://" + " " + ("-tv" + " " + tv)) == "mencoder tv:// -tv " + tv;
  }

  /** With `preview=True` the command is one line: it starts with the
      program, the source and the `-tv` clause, and ends with `-o <file>`;
      without it the command is the argument list itself. */
  lemma PreviewLine(p: Params, file: string)
    ensures MencoderCommand(p, file, false) == Args(MencoderArgs(p, file))
    ensures var text := MencoderCommand(p, file, true).text;
      var start := "mencoder tv:// -tv " + TvClause(p) + " ";
      var end := " -o " + file;
      |start| + |end| <= |text| && text[..|start|] == start && text[|text| - |end|..] == end
  {
    MiddleLength(p);
    PreviewText(MencoderArgs(p, file), MencoderHead(p), TvClause(p), MencoderMiddle(p), ExtraArgs(p), file);
  }

  /** The line of a mencoder list with a non-empty middle. */
  lemma PreviewText(a: seq<string>, head: seq<string>, tv: string, mid: seq<string>, extra: seq<string>, file: string)
    requires head == ["mencoder", "tv://", "-tv", tv] && |mid| >= 1 && a == head + mid + extra + ["-o", file]
    ensures var text := Join(a, " ");
      var start := "mencoder tv:// -tv " + tv + " ";
      var end := " -o " + file;
      |start| + |end| <= |text| && text[..|start|] == start && text[|text| - |end|..] == end
  {
    var tail := ["-o", file];
    assert head + mid + extra + tail == head + (mid + extra) + tail;
    JoinAround(head, mid + extra, tail, " ");
    JoinMencoderHead(tv);
    assert tail[1..] == [file];
    assert " " + Join(tail, " ") == " -o " + file;
  }

  /** A value that cannot be mistaken for a recording-only flag. */
  predicate NotRecordingFlag(v: string)
  {
    v != "-o" && v != "-oac" && v != "-ovc" && v != "-endpos"
  }

  /** The preview command uses the same `-tv` clause as the recording, maps
      the frame rate to `-fps`, always asks for `-quiet`, ends with the same
      `-vf` block, and (when the frame rate and extra filters are not
      themselves such flags) carries no output, codec or end-position flag. */
  lemma MplayerShape(p: Params, file: string)
    ensures var m := MplayerArgs(p);
      |m| >= 6
      && m[..5] == ["mplayer", "-slave", "tv://", "-tv", TvClause(p)]
      && m[4] == MencoderArgs(p, file)[3]
      && (p.ofps == "" ==> m[5] == "-quiet")
      && (p.ofps != "" ==> |m| >= 8 && m[5..8] == ["-fps", p.ofps, "-quiet"])
      && m[|m| - |FilterArgs(p)|..] == FilterArgs(p)
  {
    var head := ["mplayer", "-slave", "tv://", "-tv", TvClause(p)];
    Slices(head, Optional("-fps", p.ofps), ["-quiet"], FilterArgs(p));
    Slices(MencoderHead(p), MencoderMiddle(p), ExtraArgs(p), ["-o", file]);
  }

  /** When the frame rate and the extra filters are not themselves such
      flags, the preview list carries no output, codec or end-position
      flag. */
  lemma MplayerNoRecordingFlags(p: Params)
    requires NotRecordingFlag(p.ofps) && NotRecordingFlag(p.extrafilters)
    ensures forall i :: 0 <= i < |MplayerArgs(p)| ==> NotRecordingFlag(MplayerArgs(p)[i])
  {
    TvClauseStart(p);
    assert TvItems(p)[0] == TvHead(p)[0];
    assert TvClause(p)[0] == TvItems(p)[0][0];
    var head := ["mplayer", "-slave", "tv://", "-tv", TvClause(p)];
    assert forall x :: x in head ==> NotRecordingFlag(x);
    FilterRule(p);
    assert FilterArgs(p) != [] ==> NotRecordingFlag(FilterArgs(p)[1]) by {
      if FilterArgs(p) != [] && p.extrafilters == "" {
        assert FilterArgs(p)[1][0] == 's';
      }
    }
    NoRecordingFlagIn(head, Optional("-fps", p.ofps), ["-quiet"], FilterArgs(p));
  }

  /** Four blocks free of recording flags concatenate to a list free of them. */
  lemma NoRecordingFlagIn(a: seq<string>, b: seq<string>, c: seq<string>, d: seq<string>)
    requires forall x :: x in a ==> NotRecordingFlag(x)
    requires forall x :: x in b ==> NotRecordingFlag(x)
    requires forall x :: x in c ==> NotRecordingFlag(x)
    requires forall x :: x in d ==> NotRecordingFlag(x)
    ensures forall i :: 0 <= i < |a + b + c + d| ==> NotRecordingFlag((a + b + c + d)[i])
  {
    var s := a + b + c + d;
    forall i | 0 <= i < |s| ensures NotRecordingFlag(s[i]) {
      assert s[i] in a || s[i] in b || s[i] in c || s[i] in d;
    }
  }
}
