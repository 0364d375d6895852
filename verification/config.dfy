/** Configuration sections and the name-based lookup between them. The
    framework's own lookup body is not part of this model: `Lookup` below
    is the first-match search over all sections that the handlers rely on,
    failing with `DependencyNotFound` when nothing matches. */
module Config {
  import opened Results

  const WifiDeviceType: string := "wifi-device"
  const InterfaceType: string := "interface"
  const WifiIfaceType: string := "wifi-iface"

  /** A physical radio: its name, which is the name of its section, and its
      channel. */
  datatype WifiDevice = WifiDevice(name: string, channel: int)

  /** A network interface section; only its OS interface name is used here. */
  datatype Interface = Interface(configIfname: string)

  /** A validated wifi-iface section. `encryption` and `key` are optional
      options whose default is Python's `None`. */
  datatype WifiIface = WifiIface(
    name: string,
    source: string,
    device: string,
    mode: string,
    ssid: string,
    network: string,
    encryption: Option<string>,
    key: Option<string>)

  /** The typed attributes a section carries. */
  datatype Record = DeviceRecord(device: WifiDevice) | InterfaceRecord(iface: Interface) | OtherRecord

  datatype Section = Section(typename: string, name: string, record: Record)

  /** Errors the configuration handlers raise. */
  datatype Error =
    | DependencyNotFound(typename: string, name: string)
    | StaModeNotImplemented
    | UnsupportedMode(mode: string, typename: string, name: string)
    | KeyMissing
    | UnsupportedEncryption(encryption: string)
    | AttributeUnset(attribute: string)

  /** A section's type name fixes its handler class, hence its record kind;
      a radio is known by the name of its section. */
  predicate WellTagged(s: Section) {
    && (s.typename == WifiDeviceType <==> s.record.DeviceRecord?)
    && (s.typename == InterfaceType <==> s.record.InterfaceRecord?)
    && (s.record.DeviceRecord? ==> s.record.device.name == s.name)
  }

  /** All sections of one configuration pass, in declaration order. */
  type Configs = all: seq<Section> | forall i :: 0 <= i < |all| ==> WellTagged(all[i])

  predicate Matches(s: Section, typename: string, name: string) {
    s.typename == typename && s.name == name
  }

  /** Index of the first section at or after `k` with the given identity. */
  function FindFrom(all: seq<Section>, typename: string, name: string, k: nat): (r: Option<nat>)
    requires k <= |all|
    ensures r.Some? ==> k <= r.value < |all| && Matches(all[r.value], typename, name)
    ensures r.Some? ==> forall j :: k <= j < r.value ==> !Matches(all[j], typename, name)
    ensures r.None? ==> forall j :: k <= j < |all| ==> !Matches(all[j], typename, name)
    decreases |all| - k
  {
    if k == |all| then None
    else if Matches(all[k], typename, name) then Some(k)
    else FindFrom(all, typename, name, k + 1)
  }

  /** The first section with the given type name and name, if any. */
  function Lookup(all: seq<Section>, typename: string, name: string): (r: Result<Section, Error>)
    ensures r.Failure? <==> forall j :: 0 <= j < |all| ==> !Matches(all[j], typename, name)
    ensures r.Failure? ==> r.error == DependencyNotFound(typename, name)
    ensures r.Success? ==> exists i :: 0 <= i < |all| && all[i] == r.value
                                      && Matches(r.value, typename, name)
                                      && forall j :: 0 <= j < i ==> !Matches(all[j], typename, name)
  {
    match FindFrom(all, typename, name, 0)
    case Some(i) => Success(all[i])
    case None => Failure(DependencyNotFound(typename, name))
  }

  function LookupDevice(all: Configs, name: string): (r: Result<WifiDevice, Error>)
    ensures r.Failure? <==> forall j :: 0 <= j < |all| ==> !Matches(all[j], WifiDeviceType, name)
    ensures r.Failure? ==> r.error == DependencyNotFound(WifiDeviceType, name)
    ensures r.Success? ==> Section(WifiDeviceType, name, DeviceRecord(r.value)) in all
    ensures r.Success? ==> r.value.name == name
  {
    var s :- Lookup(all, WifiDeviceType, name);
    Success(s.record.device)
  }

  function LookupInterface(all: Configs, name: string): (r: Result<Interface, Error>)
    ensures r.Failure? <==> forall j :: 0 <= j < |all| ==> !Matches(all[j], InterfaceType, name)
    ensures r.Failure? ==> r.error == DependencyNotFound(InterfaceType, name)
    ensures r.Success? ==> Section(InterfaceType, name, InterfaceRecord(r.value)) in all
  {
    var s :- Lookup(all, InterfaceType, name);
    Success(s.record.iface)
  }
}
