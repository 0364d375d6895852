# Wireless configuration handlers of pdconfd, in Dafny

This project models the wireless part of Paradrop's configuration daemon
(pdconfd). Two kinds of configuration section are handled. A `wifi-device`
section is a physical radio: it is only a lookup target and emits no
commands. A `wifi-iface` section in access-point mode compiles into three
things:

- a decision whether a virtual interface must be created on the radio;
- the lines of a hostapd configuration file;
- priority-tagged commands that create the virtual interface (priority 10)
  and start hostapd (priority 30).

Its undo kills the daemon whose pid was recorded and deletes the virtual
interface (priority 50).

The model is made of pure functions over immutable data.

- `Config` holds the sections and the first-match lookup by type name and
  name, which fails with `DependencyNotFound`.
- `Hex` holds `isHexString`, with `string.hexdigits` spelled out.
- `Decimal` holds Python's `str(int)` for the `channel=` line, with a parser
  that reads it back.
- `Whitespace` holds the argument-less `str.strip()` of Python 2, the
  interpreter this code base targets. The pid file is read as a byte
  string, so only space, tab, line feed, vertical tab, form feed and
  carriage return are stripped.
- `Lines` holds the written file as a sequence of lines. Each line is
  rendered with its `"\n"` terminator and can be split back.
- `Commands` holds the priority scale and the command record.
- `Wireless` holds the handlers:
  - `DeviceCommands`;
  - `IfaceCommands`, which does the mode check, then the two lookups, then
    `Compile`;
  - `Compile`, whose result includes the file lines;
  - `EncryptionLines` and `KeyLine`;
  - `UndoCommands`, with `TolerantUndo` beside it (see "## Findings").
- `Scenario` is a worked configuration: radio `wifi0` on channel 6, network
  `lan` on `wlan0.1`, and access point `guest` with passphrase
  `password123`.

Raised exceptions become `Failure` values of one `Error` datatype:

- `StaModeNotImplemented`;
- `UnsupportedMode(mode, typename, name)`;
- `DependencyNotFound(typename, name)`;
- `UnsupportedEncryption(e)`. The raised exception's message is fixed
  ("Encryption type not supported"). The value `e` is the one the
  preceding warning names (wireless.py:123-124), carried here so the
  failure says which value was refused;
- `KeyMissing`. This one stands for the `TypeError` that `len(None)` raises
  when `psk2` is chosen without a key.
- `AttributeUnset(attribute)`. This one stands for the `AttributeError` of
  reading a handler attribute that was never assigned.

The handler's filesystem use becomes parameters:

- the write directory is an argument;
- the file's contents are returned as its lines;
- the pid files that can be read are a map from path to contents. A path
  missing from the map is the silently caught read failure.
- the two attributes undo reads (`vifName`, `pidFile`) are a
  `HandlerState`. `StateAfterApply` gives them as apply leaves them, also
  when apply raised in its encryption block.

Facts of the code that the model keeps:

- The interface-creation command ends in `type __ap` (wireless.py:91).
- The device's name in the commands and in `interface=` is the name of the
  `wifi-device` section (wireless.py:83, 90). `WellTagged` ties a device
  record's name to its section's name.
- Under `psk2` the file says `wpa=1` (wireless.py:115).
- After an apply that raised in its encryption block, `vifName` is already
  set (wireless.py:82, 86), but `pidFile` is not (wireless.py:127). Undo
  then raises: the bare `except` catches the failed `open`, but its warning
  reads the unset `pidFile` again (wireless.py:145-146). No commands are
  returned, so the recorded virtual interface is not deleted.

## Model

| member | source | states |
|---|---|---|
| Commands.PrioritiesIncreasing | paradrop/paradrop/backend/pdconfd/config/wireless.py:15-20 | The five priorities are strictly increasing: create, configure, start daemon, firewall, delete. |
| Hex.IsHexString | paradrop/paradrop/backend/pdconfd/config/wireless.py:23-27 | True exactly when every character of the string is in `string.hexdigits`; the empty string passes. |
| Hex.HexDigitRanges | paradrop/paradrop/backend/pdconfd/config/wireless.py:27 | A character is in `string.hexdigits` iff it lies in 0-9, a-f or A-F. |
| Hex.NonHexCharFails | paradrop/paradrop/backend/pdconfd/config/wireless.py:23-27 | A single character outside the hex ranges makes the test fail. |
| Hex.EmptyIsHex | paradrop/paradrop/backend/pdconfd/config/wireless.py:27 | `all` over an empty string is true. |
| Wireless.DeviceCommands | paradrop/paradrop/backend/pdconfd/config/wireless.py:38-40 | A wifi-device emits no commands. |
| Config.Lookup | paradrop/paradrop/backend/pdconfd/config/wireless.py:74-78 | Fails with `DependencyNotFound(type, name)` iff no section has that type and name; otherwise it returns the first section that does. |
| Config.LookupDevice | paradrop/paradrop/backend/pdconfd/config/wireless.py:74-75 | Fails iff no `wifi-device` section has the name. On success the radio is the record of such a section, and its name is that name. |
| Config.LookupInterface | paradrop/paradrop/backend/pdconfd/config/wireless.py:77-78 | Fails iff no `interface` section has the name. On success the interface is the record of such a section. |
| Wireless.IfaceCommands | paradrop/paradrop/backend/pdconfd/config/wireless.py:55-78 | "sta" mode fails as not implemented. Any mode other than "ap" fails naming the mode, type and section. In "ap" mode a missing device fails before a missing network, each with `DependencyNotFound`. In "ap" mode with both sections found, the result is the compilation against the device and network found. Success requires "ap" mode and a device and a network present in the configuration that the result was compiled against. |
| Wireless.Compile | paradrop/paradrop/backend/pdconfd/config/wireless.py:80-133 | Fails exactly when the encryption block fails, with its error. On success: a virtual interface iff the network's OS name differs from the radio's; a create command at priority 10 only then; hostapd started last at priority 30 with the pid and conf paths under the write directory; commands in priority order; and the file is the header, the `interface=`/`ssid=`/`channel=` lines, then the encryption block. |
| Wireless.EncryptionLines | paradrop/paradrop/backend/pdconfd/config/wireless.py:111-125 | No lines for absent or "none". For "psk2": `wpa=1` then the key line. Failure for "psk2" without a key. `UnsupportedEncryption(e)` for any other value. Success iff one of the accepted cases holds. |
| Wireless.KeyLine | paradrop/paradrop/backend/pdconfd/config/wireless.py:116-121 | `wpa_psk=` for a raw key of 64 hex digits, `wpa_passphrase=` for any other key. |
| Wireless.RawPskIsHexKey | paradrop/paradrop/backend/pdconfd/config/wireless.py:118 | The length-64-and-`isHexString` test equals the range-based description of a raw key. |
| Wireless.DirectBinding | paradrop/paradrop/backend/pdconfd/config/wireless.py:80-83 | When the network uses the radio itself, nothing is created or deleted, and hostapd binds to the radio's name. |
| Wireless.VirtualBinding | paradrop/paradrop/backend/pdconfd/config/wireless.py:84-92 | Otherwise the vif is the network's OS name, exactly one create command comes first, then the daemon start, and hostapd binds to the vif. |
| Wireless.NoEncryptionNoWpa | paradrop/paradrop/backend/pdconfd/config/wireless.py:111-113 | Without encryption, compilation succeeds with a line list of eight elements, and no element starts with `wpa`. |
| Wireless.NoEncryptionNoWpaWritten | paradrop/paradrop/backend/pdconfd/config/wireless.py:94-113 | When no option value holds a newline, the written text of an unencrypted file splits into eight lines, and none starts with `wpa`. |
| Wireless.Psk2KeyLine | paradrop/paradrop/backend/pdconfd/config/wireless.py:114-121 | Under psk2 with a key, the line list has ten elements ending `wpa=1` and the key line. No element starts with the other kind of key line. |
| Wireless.Psk2KeyLineWritten | paradrop/paradrop/backend/pdconfd/config/wireless.py:94-121 | When no option value holds a newline, the same holds of the lines of the written text: ten lines, `wpa=1` then the key line, and the other kind of key line on no line. |
| Wireless.RawKeyTail | paradrop/paradrop/backend/pdconfd/config/wireless.py:118-119 | With a raw key the last element is `wpa_psk=<key>`, and no element starts with `wpa_passphrase=`. |
| Wireless.PassphraseTail | paradrop/paradrop/backend/pdconfd/config/wireless.py:120-121 | With any other key the last element is `wpa_passphrase=<key>`, and no element starts with `wpa_psk=`. |
| Wireless.UnsupportedEncryptionFails | paradrop/paradrop/backend/pdconfd/config/wireless.py:122-125 | Any other encryption makes the iface's commands fail, so no daemon start is produced. Once mode and lookups pass, the failure is `UnsupportedEncryption(e)`, with the value the warning names. |
| Wireless.UndoCommands | paradrop/paradrop/backend/pdconfd/config/wireless.py:135-153 | Fails with `AttributeUnset("pidFile")` iff the pid path is unset. Otherwise: a kill of the stripped pid at priority 30 iff the pid file reads; a delete of the vif at priority 50 iff there is one; the kill first. |
| Wireless.TolerantUndo | paradrop/paradrop/backend/pdconfd/config/wireless.py:138-153 | The corrected undo: never fails. A kill of the stripped pid at priority 30 iff the pid path is set and the file reads. A delete of the vif at priority 50 iff there is one. The kill comes first. |
| Wireless.TolerantUndoAgrees | paradrop/paradrop/backend/pdconfd/config/wireless.py:138-153 | The handler's undo succeeds with the tolerant undo's commands exactly when the pid path is set. |
| Wireless.StateAfterApply | paradrop/paradrop/backend/pdconfd/config/wireless.py:80-128 | `vifName` is the binding decision's value (none, or the network's OS name) whether or not apply later raises. `pidFile` is set iff compilation succeeds. On success both agree with the compiled result. |
| Wireless.FailedApplyUndo | paradrop/paradrop/backend/pdconfd/config/wireless.py:80-153 | After an apply that raised in its encryption block, `vifName` holds the binding decision, and undo fails with `AttributeUnset("pidFile")`: no delete is emitted. |
| Wireless.FailedApplyTolerantUndo | paradrop/paradrop/backend/pdconfd/config/wireless.py:80-153 | After the same failed apply, the tolerant undo is exactly the deletion of the virtual interface, or nothing on a direct binding. |
| Wireless.UndoMirrorsApply | paradrop/paradrop/backend/pdconfd/config/wireless.py:80-153 | Undo deletes an interface iff apply created one, and it deletes exactly the one created. The kill uses the daemon-start priority, and undo's commands are in priority order. |
| Wireless.FileReadsBack | paradrop/paradrop/backend/pdconfd/config/wireless.py:94-121 | When no option value holds a newline, splitting the written text into lines gives back the compiled lines. |
| Lines.SplitRender | paradrop/paradrop/backend/pdconfd/config/wireless.py:96-121 | Rendering newline-free lines with terminators and splitting them again is the identity. |
| Lines.SplitLinesCons | paradrop/paradrop/backend/pdconfd/config/wireless.py:96-121 | A text that starts with one terminated line splits into that line followed by the split of the rest. |
| Decimal.IntToString | paradrop/paradrop/backend/pdconfd/config/wireless.py:109 | The channel text is nonempty, has a leading minus iff the channel is negative, is otherwise all digits, and has no leading zero unless the channel is 0. |
| Decimal.IntRoundTrip | paradrop/paradrop/backend/pdconfd/config/wireless.py:109 | Parsing the written channel text gives back the channel. |
| Decimal.IntToStringInjective | paradrop/paradrop/backend/pdconfd/config/wireless.py:109 | Distinct channels give distinct `channel=` lines. |
| Whitespace.Strip | paradrop/paradrop/backend/pdconfd/config/wireless.py:140 | The result is the input with leading and trailing ASCII whitespace (space, `\t`, `\n`, `\v`, `\f`, `\r`) removed. It is itself trimmed and occurs in the input between whitespace runs. |
| Whitespace.StripUnique | paradrop/paradrop/backend/pdconfd/config/wireless.py:140 | Any whitespace / trimmed middle / whitespace split of the input yields `Strip`'s result. |
| Whitespace.StripIdempotent | paradrop/paradrop/backend/pdconfd/config/wireless.py:140 | Stripping twice equals stripping once. |
| Scenario.GuestResolves | paradrop/paradrop/backend/pdconfd/config/wireless.py:74-78 | In the worked configuration both lookups resolve: `wifi0` to the radio and `lan` to `wlan0.1`. |
| Scenario.GuestEncryption | paradrop/paradrop/backend/pdconfd/config/wireless.py:114-121 | `password123` is not a raw key, so `wpa=1` and `wpa_passphrase=password123` are written. |
| Scenario.GuestFile | paradrop/paradrop/backend/pdconfd/config/wireless.py:94-121 | The worked file is exactly: the header, `interface=wlan0.1`, `ssid=TestNet`, `channel=6`, `wpa=1`, `wpa_passphrase=password123`. |
| Scenario.GuestCommands | paradrop/paradrop/backend/pdconfd/config/wireless.py:80-131 | The worked commands: `iw dev wifi0 interface add wlan0.1 type __ap` at 10, then hostapd with `/run/hostapd-guest.pid` and `/run/hostapd-guest.conf` at 30. |
| Scenario.GuestApply | paradrop/paradrop/backend/pdconfd/config/wireless.py:55-133 | The whole applied state of the worked access point. |
| Scenario.WepUndo | paradrop/paradrop/backend/pdconfd/config/wireless.py:122-153 | With encryption "wep", apply fails with `UnsupportedEncryption("wep")` and leaves `vifName = wlan0.1` with no pid path. The handler's undo then fails, while the tolerant undo deletes `wlan0.1`. |
| Scenario.GuestUndo | paradrop/paradrop/backend/pdconfd/config/wireless.py:135-153 | A pid file holding `1234\n` gives `kill 1234` at 30, then `iw dev wlan0.1 del` at 50. |

## Findings

| source | as written | input that shows it | evidently intended | confidence | as-written member | corrected member |
|---|---|---|---|---|---|---|
| paradrop/paradrop/backend/pdconfd/config/wireless.py:143-146 | The `except` that is meant to skip a missing pid file formats its warning with `self.pidFile`. After an apply that raised before wireless.py:127, that attribute is unset, so undo raises a second `AttributeError` and returns no commands. | A wifi-iface with encryption `wep` whose network's OS name (`wlan0.1`) differs from the radio's (`wifi0`). Apply records `vifName = wlan0.1` and raises at wireless.py:125. Undo then raises, and `iw dev wlan0.1 del` is never emitted. | Undo skips the kill, as the "maybe it was not running" comment says, and still deletes the recorded virtual interface. | medium; not executed | Wireless.UndoCommands, Wireless.FailedApplyUndo, Scenario.WepUndo | Wireless.TolerantUndo, Wireless.FailedApplyTolerantUndo, Wireless.TolerantUndoAgrees |

`UndoCommands` is the code as written. `TolerantUndo` is the corrected form. Whenever apply succeeded, the pid path is set, and `TolerantUndoAgrees` shows the two coincide. So `UndoMirrorsApply`, `DirectBinding` and `GuestUndo` hold of both forms.

## Left out

- Schema validation of the options (types, required options, defaults) is not modelled. Sections arrive already validated, with `encryption` and `key` as optional strings and `channel` as an integer.
- The framework's `lookup` body, the `Command` class and `ConfigObject` are not part of this model. Lookup is taken to be the first match by type name and name. The command class's priority names are assumed to equal the module's constants.
- The priority scheduler, the executor and the rollback are not modelled: which commands run, in what order across sections, and what happens when one fails.
- Writing the file is modelled by returning its lines. The partial file left on disk when apply raises mid-write is not modelled. This happens for an unsupported encryption (wireless.py:125), and for `psk2` without a key, where `wpa=1` is already written (wireless.py:115) when `len(None)` raises (wireless.py:118).
- The `out.warn` log calls are not modelled, because they only produce log output.
- A command's owner reference is not modelled, because it is kept only for tracing.
- Wireless.StateAfterApply: starts at the binding decision. When apply raised earlier (mode or lookup failure), neither attribute is set. Undo then fails as on any unset pid path (`UndoCommands` with `pidFile = None`), but no `HandlerState` for that point is produced.
- Wireless.UndoCommands: any failure to read the pid file is treated as the file being missing from the map. Python's newline translation when reading text is not modelled.
- Wireless.EncryptionLines: `KeyMissing` stands for the `TypeError` of `len(None)`, which would escape the handler as an exception.
- Wireless.EncryptionLines: the `UnsupportedEncryption(e)` payload comes from the warning at wireless.py:123-124. The exception raised at wireless.py:125 carries only a fixed message.
- Wireless.NoEncryptionNoWpa: speaks of the elements of the line list. An option value holding a newline (an ssid of `x\nwpa=1`, say) injects extra lines into the written text. The written-text forms (`NoEncryptionNoWpaWritten`, `Psk2KeyLineWritten`) therefore require `NewlineFree`, and the handler does no such check.
- Wireless.Psk2KeyLine: the same as above; it speaks of list elements, not of the written text's lines.
- Wireless.RawKeyTail: the same as above.
- Wireless.PassphraseTail: the same as above.
