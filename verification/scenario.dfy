/** A worked configuration: radio `wifi0` on channel 6, network `lan`
    bound to the virtual interface `wlan0.1`, and an access point `guest`
    protected by the passphrase `password123`. */
module Scenario {
  import opened Results
  import opened Config
  import opened Commands
  import opened Decimal
  import opened Whitespace
  import opened Wireless

  const Radio: WifiDevice := WifiDevice("wifi0", 6)

  const Lan: Interface := Interface("wlan0.1")

  const Sections: Configs :=
    [ Section(WifiDeviceType, "wifi0", DeviceRecord(Radio)),
      Section(InterfaceType, "lan", InterfaceRecord(Lan)) ]

  const Guest: WifiIface :=
    WifiIface("guest", "wireless", "wifi0", "ap", "TestNet", "lan", Some("psk2"), Some("password123"))

  const WriteDir: string := "/run"

  const GuestPid: string := "/run/hostapd-guest.pid"

  const GuestConf: string := "/run/hostapd-guest.conf"

  /** Both lookups of `guest` resolve, so its commands are those of the
      compilation against `wifi0` and `lan`. */
  lemma GuestResolves()
    ensures IfaceCommands(Guest, Sections, WriteDir) == Compile(Guest, Radio, Lan, WriteDir)
  {
    assert LookupDevice(Sections, "wifi0") == Success(Radio);
    assert WifiDeviceType[0] != InterfaceType[0];
    assert !Matches(Sections[0], InterfaceType, "lan");
    assert Matches(Sections[1], InterfaceType, "lan");
    var r := LookupInterface(Sections, "lan");
    assert Section(InterfaceType, "lan", InterfaceRecord(r.value)) in Sections;
  }

  /** The passphrase is not a raw key, so `wpa_passphrase` is written. */
  lemma GuestEncryption()
    ensures EncryptionLines(Guest.encryption, Guest.key) == Success(["wpa=1", "wpa_passphrase=password123"])
  {
    assert !IsRawPsk("password123");
    assert "psk2"[0] != "none"[0];
    assert KeyLine("password123") == "wpa_passphrase=password123";
  }

  /** Where the file and the pid file go. */
  lemma GuestPaths()
    ensures ConfPath(WriteDir, "guest") == GuestConf
    ensures PidPath(WriteDir, "guest") == GuestPid
  {
  }

  /** The header names the file the section came from ... */
  lemma GuestSourceLine()
    ensures "# Source: " + Guest.source == "# Source: wireless"
  {
  }

  /** ... and the section itself. */
  lemma GuestSectionLine()
    ensures "# Section: config " + WifiIfaceType + " " + Guest.name == "# Section: config wifi-iface guest"
  {
    assert "# Section: config " + WifiIfaceType == "# Section: config wifi-iface";
  }

  /** The generated file: header, binding to `wlan0.1`, channel 6 and the
      passphrase block. */
  lemma GuestFile()
    ensures Compile(Guest, Radio, Lan, WriteDir).Success?
    ensures Compile(Guest, Radio, Lan, WriteDir).value.fileLines ==
              [ Rule, GeneratedLine,
                "# Source: wireless",
                "# Section: config wifi-iface guest",
                Rule,
                "interface=wlan0.1", "ssid=TestNet", "channel=6",
                "wpa=1", "wpa_passphrase=password123" ]
  {
    GuestEncryption();
    GuestSourceLine();
    GuestSectionLine();
    assert "wlan0.1" != "wifi0";
    assert IntToString(6) == "6";
    var lines := Compile(Guest, Radio, Lan, WriteDir).value.fileLines;
    assert lines[..5] == HeaderLines(Guest);
    assert lines[2] == "# Source: wireless";
    assert lines[3] == "# Section: config wifi-iface guest";
    assert lines[5] == "interface=" + "wlan0.1" == "interface=wlan0.1";
    assert lines[6] == "ssid=" + "TestNet" == "ssid=TestNet";
    assert lines[7] == "channel=" + "6" == "channel=6";
    assert lines[5..8] == ["interface=wlan0.1", "ssid=TestNet", "channel=6"];
    assert lines[8..] == ["wpa=1", "wpa_passphrase=password123"];
    assert lines == lines[..5] + lines[5..8] + lines[8..];
  }

  /** The commands: create `wlan0.1` on `wifi0`, then start hostapd. */
  lemma GuestCommands()
    ensures Compile(Guest, Radio, Lan, WriteDir).Success?
    ensures var o := Compile(Guest, Radio, Lan, WriteDir).value;
            && o.vifName == Some("wlan0.1") && o.pidFile == GuestPid && o.confPath == GuestConf
            && o.cmds == [ Command(10, ["iw", "dev", "wifi0", "interface", "add", "wlan0.1", "type", "__ap"]),
                           Command(30, ["/apps/bin/hostapd", "-P", GuestPid, "-B", GuestConf]) ]
  {
    GuestEncryption();
    GuestPaths();
    assert "wlan0.1" != "wifi0";
  }

  /** Apply creates `wlan0.1` on `wifi0`, writes a passphrase file bound to
      `wlan0.1`, and starts hostapd on that file. */
  lemma GuestApply()
    ensures IfaceCommands(Guest, Sections, WriteDir) == Success(Applied(
              Some("wlan0.1"), GuestPid, GuestConf,
              [ Rule, GeneratedLine,
                "# Source: wireless",
                "# Section: config wifi-iface guest",
                Rule,
                "interface=wlan0.1", "ssid=TestNet", "channel=6",
                "wpa=1", "wpa_passphrase=password123" ],
              [ Command(10, ["iw", "dev", "wifi0", "interface", "add", "wlan0.1", "type", "__ap"]),
                Command(30, ["/apps/bin/hostapd", "-P", GuestPid, "-B", GuestConf]) ]))
  {
    GuestResolves();
    GuestFile();
    GuestCommands();
  }

  /** Undo kills the recorded pid, with its trailing newline stripped, and
      then deletes `wlan0.1`. */
  lemma GuestUndo()
    ensures UndoCommands(Some("wlan0.1"), Some(GuestPid), map[GuestPid := "1234\n"])
            == Success([ Command(30, ["kill", "1234"]),
                         Command(50, ["iw", "dev", "wlan0.1", "del"]) ])
  {
    var text := "1234\n";
    assert "1234" == text[0..0 + 4] && SpaceBetween(text, 0, 0) && SpaceBetween(text, 4, 5);
    StripUnique(text, "1234");
    var files := map[GuestPid := text];
    assert PidReadable(Some(GuestPid), files) && files[GuestPid] == text;
    var u := TolerantUndo(Some("wlan0.1"), Some(GuestPid), files);
    assert u == [ Command(30, ["kill", "1234"]), Command(50, ["iw", "dev", "wlan0.1", "del"]) ];
  }

  /** The same access point asking for "wep", which the handler refuses. */
  const WepGuest: WifiIface :=
    WifiIface("guest", "wireless", "wifi0", "ap", "TestNet", "lan", Some("wep"), None)

  /** Apply raises after recording `wlan0.1` but before recording a pid
      path. The handler's undo then raises as well, so `wlan0.1` is not
      deleted; the tolerant undo deletes it. */
  lemma WepUndo()
    ensures Compile(WepGuest, Radio, Lan, WriteDir) == Failure(UnsupportedEncryption("wep"))
    ensures StateAfterApply(WepGuest, Radio, Lan, WriteDir) == HandlerState(Some("wlan0.1"), None)
    ensures UndoCommands(Some("wlan0.1"), None, map[]) == Failure(AttributeUnset("pidFile"))
    ensures TolerantUndo(Some("wlan0.1"), None, map[]) == [Command(50, ["iw", "dev", "wlan0.1", "del"])]
  {
    assert "wep"[0] != "none"[0] && "wep"[0] != "psk2"[0];
    assert "wlan0.1" != "wifi0";
  }
}
