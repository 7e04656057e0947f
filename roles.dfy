/** Process-role selection from the command line (tailscaled_windows.go,
    beWindowsSubprocess and beFirewallKillswitch).  The killswitch check
    runs first; both modes need exactly three arguments with the mode flag
    in position 1 and their payload in position 2.
 */
module Roles {

  datatype Role =
    | FirewallKillswitch(guid: string)  // "/firewall <interface GUID>"
    | WindowsSubprocess(logid: string)  // "/subproc <log id>"
    | Daemon                            // neither: the ordinary daemon

  predicate IsKillswitchArgs(args: seq<string>)
  {
    |args| == 3 && args[1] == "/firewall"
  }

  predicate IsSubprocArgs(args: seq<string>)
  {
    |args| == 3 && args[1] == "/subproc"
  }

  /** The role a process plays given its os.Args. */
  function SelectRole(args: seq<string>): (r: Role)
    ensures r.FirewallKillswitch? <==> |args| == 3 && args[1] == "/firewall"
    ensures r.WindowsSubprocess? <==> |args| == 3 && args[1] == "/subproc"
    ensures r.Daemon? <==> |args| != 3 || (args[1] != "/firewall" && args[1] != "/subproc")
    ensures r.FirewallKillswitch? ==> r.guid == args[2]
    ensures r.WindowsSubprocess? ==> r.logid == args[2]
  {
    if IsKillswitchArgs(args) then FirewallKillswitch(args[2])
    else if IsSubprocArgs(args) then WindowsSubprocess(args[2])
    else Daemon
  }

  /** beWindowsSubprocess's answer: true when the process took one of the
      two subprocess roles and so must not run as the daemon.  (In the
      killswitch role the call never comes back: that process exits from
      inside its route loop.) */
  function BeWindowsSubprocess(args: seq<string>): (b: bool)
    ensures b <==> |args| == 3 && (args[1] == "/firewall" || args[1] == "/subproc")
  {
    !SelectRole(args).Daemon?
  }
}
