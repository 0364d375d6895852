/** The wireless handlers: a wifi-device contributes nothing, a wifi-iface
    in access-point mode compiles into a virtual-interface decision, the
    lines of a hostapd configuration file and priority-tagged commands, and
    its undo stops the daemon and removes the virtual interface. */
module Wireless {
  import opened Results
  import opened Hex
  import opened Decimal
  import opened Whitespace
  import opened Lines
  import opened Config
  import opened Commands

  const HostapdBinary: string := "/apps/bin/hostapd"

  /** The header line naming the tool that generated the file. */
  const GeneratedLine: string := "# hostapd configuration file generated by " + "pdconfd"

  /** The 80-character rule framing the file's header, `"#" * 80`, written
      as four runs of twenty. */
  const Rule: string := RuleQuarter + RuleQuarter + RuleQuarter + RuleQuarter

  /** Twenty `#` characters. */
  const RuleQuarter: string := "####################"

  /** The handler's `vifName` once the binding decision has run: none when
      the network uses the radio itself, else the network's OS name. */
  function BindingVif(device: WifiDevice, network: Interface): Option<string> {
    if network.configIfname == device.name then None else Some(network.configIfname)
  }

  /** The two attributes undo reads, as apply leaves them. `pidFile` is
      `None` while the attribute is unset. */
  datatype HandlerState = HandlerState(vifName: Option<string>, pidFile: Option<string>)

  /** What a successful compile produces, together with the state the
      handler keeps for its undo: the virtual interface it created, if any,
      and the pid file the daemon is told to write. */
  datatype Applied = Applied(
    vifName: Option<string>,
    pidFile: string,
    confPath: string,
    fileLines: seq<string>,
    cmds: seq<Command>)

  /** A key that hostapd takes as the raw pre-shared key: 64 characters,
      all hexadecimal digits. */
  predicate IsRawPsk(key: string) {
    |key| == 64 && forall i :: 0 <= i < |key| ==> InHexRanges(key[i])
  }

  predicate StartsWith(line: string, prefix: string) {
    |prefix| <= |line| && forall k :: 0 <= k < |prefix| ==> line[k] == prefix[k]
  }

  /** No line of the file sets an option whose text begins with `prefix`. */
  predicate NoLineStartsWith(lines: seq<string>, prefix: string) {
    forall i :: 0 <= i < |lines| ==> !StartsWith(lines[i], prefix)
  }

  /** A wifi-device is only a lookup target: it never emits a command. */
  function DeviceCommands(device: WifiDevice, all: Configs): (r: seq<Command>)
    ensures |r| == 0
  {
    []
  }

  function ConfPath(writeDir: string, name: string): string {
    writeDir + "/hostapd-" + name + ".conf"
  }

  function PidPath(writeDir: string, name: string): string {
    writeDir + "/hostapd-" + name + ".pid"
  }

  function HeaderLines(iface: WifiIface): seq<string> {
    [ Rule,
      GeneratedLine,
      "# Source: " + iface.source,
      "# Section: config " + WifiIfaceType + " " + iface.name,
      Rule ]
  }

  /** The handler's raw-key test, length then `isHexString`, is exactly the
      range-based description of a raw key. */
  lemma RawPskIsHexKey(key: string)
    ensures IsRawPsk(key) <==> |key| == 64 && IsHexString(key)
  {
    forall i | 0 <= i < |key| {
      HexDigitRanges(key[i]);
    }
  }

  /** The key line under "psk2": a raw key when it looks like one, a
      passphrase otherwise. */
  function KeyLine(key: string): (line: string)
    ensures IsRawPsk(key) ==> line == "wpa_psk=" + key
    ensures !IsRawPsk(key) ==> line == "wpa_passphrase=" + key
  {
    RawPskIsHexKey(key);
    if |key| == 64 && IsHexString(key) then "wpa_psk=" + key else "wpa_passphrase=" + key
  }

  /** The optional encryption block of the file. */
  function EncryptionLines(encryption: Option<string>, key: Option<string>): (r: Result<seq<string>, Error>)
    ensures r.Success? <==> (encryption == None || encryption == Some("none")
                             || (encryption == Some("psk2") && key.Some?))
    ensures encryption == None || encryption == Some("none") ==> r == Success([])
    ensures encryption == Some("psk2") && key.Some? && IsRawPsk(key.value) ==>
              r == Success(["wpa=1", "wpa_psk=" + key.value])
    ensures encryption == Some("psk2") && key.Some? && !IsRawPsk(key.value) ==>
              r == Success(["wpa=1", "wpa_passphrase=" + key.value])
    ensures encryption == Some("psk2") && key.None? ==> r == Failure(KeyMissing)
    ensures encryption.Some? && encryption.value != "none" && encryption.value != "psk2" ==>
              r == Failure(UnsupportedEncryption(encryption.value))
  {
    match encryption
    case None => Success([])
    case Some(e) =>
      if e == "none" then Success([])
      else if e == "psk2" then
        match key
        case None => Failure(KeyMissing)
        case Some(k) => Success(["wpa=1", KeyLine(k)])
      else Failure(UnsupportedEncryption(e))
  }

  /** The eight lines every generated file starts with: the header, which
      names the section it came from, then the interface hostapd binds to,
      the network name and the radio channel. */
  predicate FixedLines(lines: seq<string>, iface: WifiIface, ifname: string, channel: int) {
    && |lines| >= 8
    && lines[0] == Rule && lines[4] == Rule
    && lines[1] == GeneratedLine
    && lines[2] == "# Source: " + iface.source
    && lines[3] == "# Section: config " + WifiIfaceType + " " + iface.name
    && lines[5] == "interface=" + ifname
    && lines[6] == "ssid=" + iface.ssid
    && lines[7] == "channel=" + IntToString(channel)
  }

  /** What a successful compile of `iface` against its resolved device and
      network promises about the applied state `o`. */
  predicate CompiledFrom(o: Applied, iface: WifiIface, device: WifiDevice, network: Interface, writeDir: string) {
    // virtual-interface decision
    && (o.vifName == None <==> network.configIfname == device.name)
    && (o.vifName.Some? ==> o.vifName.value == network.configIfname)
    // commands: an optional interface creation, then the daemon start
    && |o.cmds| == (if o.vifName.Some? then 2 else 1)
    && (o.vifName.Some? ==> o.cmds[0] == Command(PrioCreateIface,
          ["iw", "dev", device.name, "interface", "add", network.configIfname, "type", "__ap"]))
    && o.pidFile == writeDir + "/hostapd-" + iface.name + ".pid"
    && o.confPath == writeDir + "/hostapd-" + iface.name + ".conf"
    && o.cmds[|o.cmds| - 1] == Command(PrioStartDaemon, [HostapdBinary, "-P", o.pidFile, "-B", o.confPath])
    && NonDecreasing(o.cmds)
    // file: the fixed lines, then the encryption block
    && FixedLines(o.fileLines, iface, if o.vifName.Some? then network.configIfname else device.name, device.channel)
    && EncryptionLines(iface.encryption, iface.key) == Success(o.fileLines[8..])
  }

  /** Compilation of an access point once its device and network are
      resolved. Only the encryption block can fail. */
  function Compile(iface: WifiIface, device: WifiDevice, network: Interface, writeDir: string): (r: Result<Applied, Error>)
    ensures r.Success? <==> EncryptionLines(iface.encryption, iface.key).Success?
    ensures r.Failure? ==> r == Failure(EncryptionLines(iface.encryption, iface.key).error)
    ensures r.Success? ==> CompiledFrom(r.value, iface, device, network, writeDir)
  {
    var vifName := BindingVif(device, network);
    var ifname := if vifName.None? then device.name else network.configIfname;
    var create := if vifName.None? then []
                  else [Command(PrioCreateIface, ["iw", "dev", device.name, "interface", "add", network.configIfname, "type", "__ap"])];
    var encryptionLines :- EncryptionLines(iface.encryption, iface.key);
    var confPath := ConfPath(writeDir, iface.name);
    var pidFile := PidPath(writeDir, iface.name);
    var body := ["interface=" + ifname, "ssid=" + iface.ssid, "channel=" + IntToString(device.channel)];
    var lines := HeaderLines(iface) + body + encryptionLines;
    var cmds := create + [Command(PrioStartDaemon, [HostapdBinary, "-P", pidFile, "-B", confPath])];
    assert lines[5..8] == body && lines[8..] == encryptionLines;
    assert lines[..5] == HeaderLines(iface);
    Success(Applied(vifName, pidFile, confPath, lines, cmds))
  }

  /** A wifi-iface's apply commands: the mode check comes first, then the
      two lookups, then compilation. */
  function IfaceCommands(iface: WifiIface, all: Configs, writeDir: string): (r: Result<Applied, Error>)
    ensures iface.mode == "sta" ==> r == Failure(StaModeNotImplemented)
    ensures iface.mode != "ap" && iface.mode != "sta" ==>
              r == Failure(UnsupportedMode(iface.mode, WifiIfaceType, iface.name))
    ensures iface.mode == "ap" && (forall j :: 0 <= j < |all| ==> !Matches(all[j], WifiDeviceType, iface.device)) ==>
              r == Failure(DependencyNotFound(WifiDeviceType, iface.device))
    ensures iface.mode == "ap" && (exists j :: 0 <= j < |all| && Matches(all[j], WifiDeviceType, iface.device))
              && (forall j :: 0 <= j < |all| ==> !Matches(all[j], InterfaceType, iface.network)) ==>
              r == Failure(DependencyNotFound(InterfaceType, iface.network))
    ensures iface.mode == "ap" && LookupDevice(all, iface.device).Success?
              && LookupInterface(all, iface.network).Success? ==>
              r == Compile(iface, LookupDevice(all, iface.device).value, LookupInterface(all, iface.network).value, writeDir)
    ensures r.Success? ==>
              && iface.mode == "ap"
              && exists device, network ::
                   && Section(WifiDeviceType, iface.device, DeviceRecord(device)) in all
                   && Section(InterfaceType, iface.network, InterfaceRecord(network)) in all
                   && r == Compile(iface, device, network, writeDir)
  {
    if iface.mode == "ap" then
      var device :- LookupDevice(all, iface.device);
      var network :- LookupInterface(all, iface.network);
      Compile(iface, device, network, writeDir)
    else if iface.mode == "sta" then
      Failure(StaModeNotImplemented)
    else
      Failure(UnsupportedMode(iface.mode, WifiIfaceType, iface.name))
  }

  /** Whether undo can read the pid file: the attribute is set and the file
      is one of the readable `files`. */
  predicate PidReadable(pidFile: Option<string>, files: map<string, string>) {
    pidFile.Some? && pidFile.value in files
  }

  /** A wifi-iface's undo commands, as the handler computes them. `files`
      holds the files that can be read and their contents; an unreadable pid
      file is the silent "not running" path, and undo goes on. An unset pid
      path is caught the same way, but the warning then reads the unset
      attribute again, so undo raises and returns no commands. */
  function UndoCommands(vifName: Option<string>, pidFile: Option<string>, files: map<string, string>): (r: Result<seq<Command>, Error>)
    ensures r.Failure? <==> pidFile.None?
    ensures r.Failure? ==> r.error == AttributeUnset("pidFile")
    ensures r.Success? ==>
              |r.value| == (if pidFile.value in files then 1 else 0) + (if vifName.Some? then 1 else 0)
    ensures r.Success? && pidFile.value in files ==>
              r.value[0] == Command(PrioStartDaemon, ["kill", Strip(files[pidFile.value])])
    ensures r.Success? && vifName.Some? ==>
              r.value[|r.value| - 1] == Command(PrioDeleteIface, ["iw", "dev", vifName.value, "del"])
    ensures r.Success? ==> NonDecreasing(r.value)
  {
    if pidFile.None? then Failure(AttributeUnset("pidFile"))
    else Success(TolerantUndo(vifName, pidFile, files))
  }

  /** Undo as the "not running" path evidently intends it: an unset pid
      path is skipped like an unreadable pid file, so undo never raises and
      always deletes the virtual interface. */
  function TolerantUndo(vifName: Option<string>, pidFile: Option<string>, files: map<string, string>): (r: seq<Command>)
    ensures |r| == (if PidReadable(pidFile, files) then 1 else 0) + (if vifName.Some? then 1 else 0)
    ensures PidReadable(pidFile, files) ==> r[0] == Command(PrioStartDaemon, ["kill", Strip(files[pidFile.value])])
    ensures vifName.Some? ==> r[|r| - 1] == Command(PrioDeleteIface, ["iw", "dev", vifName.value, "del"])
    ensures NonDecreasing(r)
  {
    var delete := if vifName.Some? then [Command(PrioDeleteIface, ["iw", "dev", vifName.value, "del"])] else [];
    if PidReadable(pidFile, files) then
      var pid := Strip(files[pidFile.value]);
      [Command(PrioStartDaemon, ["kill", pid])] + delete
    else
      delete
  }

  /** Binding straight to the radio: no interface is created by apply or
      deleted by undo, and hostapd is told to use the device itself. */
  lemma DirectBinding(iface: WifiIface, device: WifiDevice, network: Interface, writeDir: string,
                      files: map<string, string>)
    requires network.configIfname == device.name
    requires Compile(iface, device, network, writeDir).Success?
    ensures var o := Compile(iface, device, network, writeDir).value;
            && o.vifName == None
            && (forall i :: 0 <= i < |o.cmds| ==> o.cmds[i].prio != PrioCreateIface)
            && o.fileLines[5] == "interface=" + device.name
            && UndoCommands(o.vifName, Some(o.pidFile), files).Success?
            && var u := UndoCommands(o.vifName, Some(o.pidFile), files).value;
               forall i :: 0 <= i < |u| ==> u[i].prio != PrioDeleteIface
  {
    var o := Compile(iface, device, network, writeDir).value;
    assert CompiledFrom(o, iface, device, network, writeDir);
    assert o.vifName == None && |o.cmds| == 1;
    assert o.cmds[0].prio == PrioStartDaemon;
    var u := UndoCommands(None, Some(o.pidFile), files).value;
    assert |u| <= 1 && (|u| == 1 ==> u[0].prio == PrioStartDaemon);
  }

  /** A virtual interface: exactly one creation command, and it runs before
      the daemon start. */
  lemma VirtualBinding(iface: WifiIface, device: WifiDevice, network: Interface, writeDir: string)
    requires network.configIfname != device.name
    requires Compile(iface, device, network, writeDir).Success?
    ensures var o := Compile(iface, device, network, writeDir).value;
            && o.vifName == Some(network.configIfname)
            && o.cmds[0].prio == PrioCreateIface
            && (forall i :: 0 <= i < |o.cmds| && o.cmds[i].prio == PrioCreateIface ==> i == 0)
            && o.cmds[1].prio == PrioStartDaemon
            && o.fileLines[5] == "interface=" + network.configIfname
  {
  }

  /** The eight fixed lines start with '#' or with an option name other
      than a `wpa` one. */
  lemma FixedLinesStart(lines: seq<string>, iface: WifiIface, ifname: string, channel: int)
    requires FixedLines(lines, iface, ifname, channel)
    ensures forall i :: 0 <= i < 8 ==> |lines[i]| > 0 && lines[i][0] != 'w'
  {
    assert ("# Source: " + iface.source)[0] == '#';
    assert GeneratedLine[0] == '#';
    assert ("# Section: config " + WifiIfaceType + " " + iface.name)[0] == '#';
    assert ("interface=" + ifname)[0] == 'i';
    assert ("ssid=" + iface.ssid)[0] == 's';
    assert ("channel=" + IntToString(channel))[0] == 'c';
  }

  /** Without encryption the file ends after the channel line: no `wpa`
      option of any kind is written. */
  lemma NoEncryptionNoWpa(iface: WifiIface, device: WifiDevice, network: Interface, writeDir: string)
    requires iface.encryption == None || iface.encryption == Some("none")
    ensures Compile(iface, device, network, writeDir).Success?
    ensures var o := Compile(iface, device, network, writeDir).value;
            && |o.fileLines| == 8
            && NoLineStartsWith(o.fileLines, "wpa")
  {
    var o := Compile(iface, device, network, writeDir).value;
    var ifname := if o.vifName.Some? then network.configIfname else device.name;
    FixedLinesStart(o.fileLines, iface, ifname, device.channel);
  }

  /** Under "psk2" exactly one key line is written after `wpa=1`: the raw
      key when the key is 64 hexadecimal digits, the passphrase otherwise;
      the other kind of key line never appears. */
  lemma Psk2KeyLine(iface: WifiIface, device: WifiDevice, network: Interface, writeDir: string, key: string)
    requires iface.encryption == Some("psk2") && iface.key == Some(key)
    ensures Compile(iface, device, network, writeDir).Success?
    ensures var o := Compile(iface, device, network, writeDir).value;
            && |o.fileLines| == 10
            && o.fileLines[8] == "wpa=1"
            && (IsRawPsk(key) ==>
                  && o.fileLines[9] == "wpa_psk=" + key
                  && NoLineStartsWith(o.fileLines, "wpa_passphrase="))
            && (!IsRawPsk(key) ==>
                  && o.fileLines[9] == "wpa_passphrase=" + key
                  && NoLineStartsWith(o.fileLines, "wpa_psk="))
  {
    var r := Compile(iface, device, network, writeDir);
    assert r.Success?;
    var o := r.value;
    assert CompiledFrom(o, iface, device, network, writeDir);
    var ifname := if o.vifName.Some? then network.configIfname else device.name;
    if IsRawPsk(key) {
      RawKeyTail(o.fileLines, iface, ifname, device.channel, key);
    } else {
      PassphraseTail(o.fileLines, iface, ifname, device.channel, key);
    }
  }

  lemma RawKeyTail(lines: seq<string>, iface: WifiIface, ifname: string, channel: int, key: string)
    requires FixedLines(lines, iface, ifname, channel)
    requires iface.encryption == Some("psk2") && iface.key == Some(key) && IsRawPsk(key)
    requires EncryptionLines(iface.encryption, iface.key) == Success(lines[8..])
    ensures |lines| == 10 && lines[8] == "wpa=1" && lines[9] == "wpa_psk=" + key
    ensures NoLineStartsWith(lines, "wpa_passphrase=")
  {
    FixedLinesStart(lines, iface, ifname, channel);
    var keyLine := "wpa_psk=" + key;
    assert lines[8..] == ["wpa=1", keyLine];
    PrefixChar("wpa_psk=", key, 5);
    KeyLineAfterWpa(lines, "wpa_passphrase=", keyLine);
  }

  lemma PassphraseTail(lines: seq<string>, iface: WifiIface, ifname: string, channel: int, key: string)
    requires FixedLines(lines, iface, ifname, channel)
    requires iface.encryption == Some("psk2") && iface.key == Some(key) && !IsRawPsk(key)
    requires EncryptionLines(iface.encryption, iface.key) == Success(lines[8..])
    ensures |lines| == 10 && lines[8] == "wpa=1" && lines[9] == "wpa_passphrase=" + key
    ensures NoLineStartsWith(lines, "wpa_psk=")
  {
    FixedLinesStart(lines, iface, ifname, channel);
    var keyLine := "wpa_passphrase=" + key;
    assert lines[8..] == ["wpa=1", keyLine];
    PrefixChar("wpa_passphrase=", key, 5);
    KeyLineAfterWpa(lines, "wpa_psk=", keyLine);
  }

  lemma PrefixChar(prefix: string, rest: string, i: nat)
    requires i < |prefix|
    ensures |prefix + rest| > i && (prefix + rest)[i] == prefix[i]
  {
  }

  lemma KeyLineAfterWpa(lines: seq<string>, prefix: string, keyLine: string)
    requires |lines| >= 8 && lines[8..] == ["wpa=1", keyLine]
    requires |prefix| > 5 && |keyLine| > 5 && keyLine[5] != prefix[5] && prefix[0] == 'w'
    requires forall i :: 0 <= i < 8 ==> |lines[i]| > 0 && lines[i][0] != 'w'
    ensures |lines| == 10 && lines[8] == "wpa=1" && lines[9] == keyLine
    ensures NoLineStartsWith(lines, prefix)
  {
    assert lines[8] == "wpa=1" && lines[9] == keyLine;
    NoneStartsWith(lines, prefix, keyLine);
  }

  /** Ten lines whose first eight do not start with 'w', then `wpa=1`,
      then a line that differs from `prefix` at position 5: no line
      starts with `prefix`. */
  lemma NoneStartsWith(lines: seq<string>, prefix: string, keyLine: string)
    requires |lines| == 10 && |prefix| > 5 && |keyLine| > 5 && keyLine[5] != prefix[5] && prefix[0] == 'w'
    requires forall i :: 0 <= i < 8 ==> |lines[i]| > 0 && lines[i][0] != 'w'
    requires lines[8] == "wpa=1" && lines[9] == keyLine
    ensures NoLineStartsWith(lines, prefix)
  {
    forall i | 0 <= i < |lines| ensures !StartsWith(lines[i], prefix) {
      if i < 8 {
        assert lines[i][0] != prefix[0];
      } else if i == 8 {
        assert |lines[i]| < |prefix|;
      } else {
        assert lines[i][5] != prefix[5];
      }
    }
  }

  /** An encryption other than absent, "none" or "psk2" fails the whole
      compilation with an error naming it, so no daemon start is produced. */
  lemma UnsupportedEncryptionFails(iface: WifiIface, all: Configs, writeDir: string, e: string)
    requires iface.encryption == Some(e) && e != "none" && e != "psk2"
    ensures IfaceCommands(iface, all, writeDir).Failure?
    ensures iface.mode == "ap" && LookupDevice(all, iface.device).Success? && LookupInterface(all, iface.network).Success? ==>
              IfaceCommands(iface, all, writeDir) == Failure(UnsupportedEncryption(e))
  {
  }

  /** Undo mirrors apply: it deletes exactly the virtual interface apply
      created, stops the daemon at the daemon-start priority, and the stop
      runs before the deletion. */
  lemma UndoMirrorsApply(iface: WifiIface, device: WifiDevice, network: Interface, writeDir: string,
                         files: map<string, string>)
    requires Compile(iface, device, network, writeDir).Success?
    ensures var o := Compile(iface, device, network, writeDir).value;
            && UndoCommands(o.vifName, Some(o.pidFile), files).Success?
            && var u := UndoCommands(o.vifName, Some(o.pidFile), files).value;
            && (|o.cmds| == 2 <==> (exists i :: 0 <= i < |u| && u[i].prio == PrioDeleteIface))
            && (|o.cmds| == 2 ==> u[|u| - 1].argv == ["iw", "dev", o.cmds[0].argv[5], "del"])
            && (forall i :: 0 <= i < |u| && u[i].argv[0] == "kill" ==> u[i].prio == o.cmds[|o.cmds| - 1].prio)
            && NonDecreasing(u)
  {
    var o := Compile(iface, device, network, writeDir).value;
    var u := UndoCommands(o.vifName, Some(o.pidFile), files).value;
    if o.pidFile in files && o.vifName.Some? {
      assert u[0].argv[0] == "kill" && u[1].argv[0] == "iw";
    }
  }

  /** The attributes apply leaves behind, whether or not it raised. The
      binding decision runs before the file is written, so `vifName` is set
      even when the encryption block fails; `pidFile` is set only once the
      file is complete. */
  function StateAfterApply(iface: WifiIface, device: WifiDevice, network: Interface, writeDir: string): (s: HandlerState)
    ensures s.vifName == (if network.configIfname == device.name then None else Some(network.configIfname))
    ensures s.pidFile.Some? <==> Compile(iface, device, network, writeDir).Success?
    ensures Compile(iface, device, network, writeDir).Success? ==>
              var o := Compile(iface, device, network, writeDir).value;
              s == HandlerState(o.vifName, Some(o.pidFile))
  {
    HandlerState(BindingVif(device, network),
                 if EncryptionLines(iface.encryption, iface.key).Success? then Some(PidPath(writeDir, iface.name)) else None)
  }

  /** After an apply that raised in its encryption block, undo raises in
      turn: it returns no commands, so the virtual interface the binding
      decision recorded is not deleted. */
  lemma FailedApplyUndo(iface: WifiIface, device: WifiDevice, network: Interface, writeDir: string,
                        files: map<string, string>)
    requires Compile(iface, device, network, writeDir).Failure?
    ensures var s := StateAfterApply(iface, device, network, writeDir);
            && s.vifName == BindingVif(device, network)
            && UndoCommands(s.vifName, s.pidFile, files) == Failure(AttributeUnset("pidFile"))
  {
  }

  /** With the tolerant undo, the same state undoes cleanly: nothing is
      killed, and the recorded virtual interface is deleted. */
  lemma FailedApplyTolerantUndo(iface: WifiIface, device: WifiDevice, network: Interface, writeDir: string,
                                files: map<string, string>)
    requires Compile(iface, device, network, writeDir).Failure?
    ensures var s := StateAfterApply(iface, device, network, writeDir);
            TolerantUndo(s.vifName, s.pidFile, files) ==
              if network.configIfname == device.name then []
              else [Command(PrioDeleteIface, ["iw", "dev", network.configIfname, "del"])]
  {
  }

  /** Whenever the pid path is set, the handler's undo and the tolerant undo
      agree; they differ only on the unset path. */
  lemma TolerantUndoAgrees(vifName: Option<string>, pidFile: Option<string>, files: map<string, string>)
    ensures pidFile.Some? <==> UndoCommands(vifName, pidFile, files) == Success(TolerantUndo(vifName, pidFile, files))
  {
  }

  /** None of the section's strings that reach the file carries a newline. */
  predicate NewlineFree(iface: WifiIface, device: WifiDevice, network: Interface) {
    && NoNewline(iface.source) && NoNewline(iface.name) && NoNewline(iface.ssid)
    && NoNewline(device.name) && NoNewline(network.configIfname)
    && (iface.key.Some? ==> NoNewline(iface.key.value))
  }

  /** Reading the generated file back line by line gives the modelled lines,
      provided none of the section's strings carries a newline. */
  lemma FileReadsBack(iface: WifiIface, device: WifiDevice, network: Interface, writeDir: string)
    requires Compile(iface, device, network, writeDir).Success?
    requires NewlineFree(iface, device, network)
    ensures var o := Compile(iface, device, network, writeDir).value;
            SplitLines(Render(o.fileLines)) == o.fileLines
  {
    var o := Compile(iface, device, network, writeDir).value;
    var ifname := if o.vifName.Some? then network.configIfname else device.name;
    assert FixedLines(o.fileLines, iface, ifname, device.channel);
    FixedLinesNoNewline(o.fileLines, iface, ifname, device.channel);
    var tail := o.fileLines[8..];
    EncryptionLinesNoNewline(iface.encryption, iface.key);
    forall j | 0 <= j < |o.fileLines|
      ensures NoNewline(o.fileLines[j])
    {
      if j >= 8 {
        assert o.fileLines[j] == tail[j - 8];
      }
    }
    SplitRender(o.fileLines);
  }

  /** Read back from the written text, an unencrypted file has no `wpa`
      line either. */
  lemma NoEncryptionNoWpaWritten(iface: WifiIface, device: WifiDevice, network: Interface, writeDir: string)
    requires iface.encryption == None || iface.encryption == Some("none")
    requires NewlineFree(iface, device, network)
    ensures Compile(iface, device, network, writeDir).Success?
    ensures var written := SplitLines(Render(Compile(iface, device, network, writeDir).value.fileLines));
            |written| == 8 && NoLineStartsWith(written, "wpa")
  {
    NoEncryptionNoWpa(iface, device, network, writeDir);
    FileReadsBack(iface, device, network, writeDir);
  }

  /** Read back from the written text, a "psk2" file ends with `wpa=1` and
      the one key line, and the other kind of key line is on no line. */
  lemma Psk2KeyLineWritten(iface: WifiIface, device: WifiDevice, network: Interface, writeDir: string, key: string)
    requires iface.encryption == Some("psk2") && iface.key == Some(key)
    requires NewlineFree(iface, device, network)
    ensures Compile(iface, device, network, writeDir).Success?
    ensures var written := SplitLines(Render(Compile(iface, device, network, writeDir).value.fileLines));
            && |written| == 10
            && written[8] == "wpa=1"
            && (IsRawPsk(key) ==>
                  && written[9] == "wpa_psk=" + key
                  && NoLineStartsWith(written, "wpa_passphrase="))
            && (!IsRawPsk(key) ==>
                  && written[9] == "wpa_passphrase=" + key
                  && NoLineStartsWith(written, "wpa_psk="))
  {
    Psk2KeyLine(iface, device, network, writeDir, key);
    FileReadsBack(iface, device, network, writeDir);
  }

  lemma FixedLinesNoNewline(lines: seq<string>, iface: WifiIface, ifname: string, channel: int)
    requires FixedLines(lines, iface, ifname, channel)
    requires NoNewline(iface.source) && NoNewline(iface.name) && NoNewline(iface.ssid) && NoNewline(ifname)
    ensures forall j :: 0 <= j < 8 ==> NoNewline(lines[j])
  {
    var text := IntToString(channel);
    assert NoNewline(text) by {
      forall i | 0 <= i < |text| ensures text[i] != '\n' {
        if channel < 0 && i > 0 {
          assert text[i] == text[1..][i - 1];
        }
      }
    }
    RuleNoNewline();
    NoNewlineConcat("# hostapd configuration file generated by ", "pdconfd");
    NoNewlineConcat("# Source: ", iface.source);
    NoNewlineConcat("# Section: config " + WifiIfaceType + " ", iface.name);
    NoNewlineConcat("interface=", ifname);
    NoNewlineConcat("ssid=", iface.ssid);
    NoNewlineConcat("channel=", text);
  }

  lemma RuleNoNewline()
    ensures NoNewline(Rule)
  {
    NoNewlineConcat(RuleQuarter, RuleQuarter);
    NoNewlineConcat(RuleQuarter + RuleQuarter, RuleQuarter);
    NoNewlineConcat(RuleQuarter + RuleQuarter + RuleQuarter, RuleQuarter);
  }

  lemma EncryptionLinesNoNewline(encryption: Option<string>, key: Option<string>)
    requires key.Some? ==> NoNewline(key.value)
    requires EncryptionLines(encryption, key).Success?
    ensures var lines := EncryptionLines(encryption, key).value;
            forall j :: 0 <= j < |lines| ==> NoNewline(lines[j])
  {
    if key.Some? {
      NoNewlineConcat("wpa_psk=", key.value);
      NoNewlineConcat("wpa_passphrase=", key.value);
    }
  }

  lemma NoNewlineConcat(a: string, b: string)
    requires NoNewline(a) && NoNewline(b)
    ensures NoNewline(a + b)
  {
    forall i | 0 <= i < |a + b| ensures (a + b)[i] != '\n' {
      if i >= |a| {
        assert (a + b)[i] == b[i - |a|];
      }
    }
  }
}
