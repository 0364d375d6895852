/** Priority-tagged commands. The shared scale is fixed with gaps of ten so
    new phases can be inserted; lower numbers run earlier. The command
    class's own `PRIO_*` names are assumed to carry the same values as the
    wireless module's constants below. */
module Commands {

  const PrioCreateIface: int := 10
  const PrioConfigIface: int := 20
  const PrioStartDaemon: int := 30
  const PrioAddIptables: int := 40
  const PrioDeleteIface: int := 50

  /** One subprocess invocation: its argument vector and its priority. The
      owning configuration object, kept only for tracing, is not modelled. */
  datatype Command = Command(prio: int, argv: seq<string>)

  /** Lower priorities never follow higher ones. */
  predicate NonDecreasing(cmds: seq<Command>) {
    forall i, j :: 0 <= i < j < |cmds| ==> cmds[i].prio <= cmds[j].prio
  }

  /** The five phases are strictly ordered: interfaces are created before
      they are configured, daemons start after that, firewall rules come
      next and interface deletion runs last. */
  lemma PrioritiesIncreasing()
    ensures PrioCreateIface < PrioConfigIface < PrioStartDaemon < PrioAddIptables < PrioDeleteIface
  {}
}
