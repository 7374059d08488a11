/** A command the provisioning issues: a program and its argument vector,
    as handed to the command runner. */
module Command {

  datatype Cmd = Cmd(program: string, args: seq<string>)

  /** The full argument vector, program first. */
  function Argv(c: Cmd): (r: seq<string>)
    ensures |r| == |c.args| + 1 && r[0] == c.program && r[1..] == c.args
  {
    [c.program] + c.args
  }

  /** `sudo <argv>`: the command runs the whole vector under privilege
      escalation. */
  function Sudo(argv: seq<string>): (c: Cmd)
    ensures c.program == "sudo" && c.args == argv
  {
    Cmd("sudo", argv)
  }

  /** Removing the `sudo` wrapper recovers the command it escalates. */
  function Unwrap(c: Cmd): (r: Cmd)
    requires c.program == "sudo" && |c.args| > 0
    ensures Argv(r) == c.args
  {
    Cmd(c.args[0], c.args[1..])
  }
}
