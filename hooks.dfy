/**
 * What an interface hook compiler hands back instead of touching the host: the commands
 * it runs at once, the one file it writes or removes, and the command the interface's
 * PostUp/PreDown hook is set to (empty when there is nothing to run).
 */
module Hooks {
  /** The prefix every generated shell script starts with. */
  const Shebang := "#!/usr/bin/env bash\nset -e\n\n"

  datatype FileEffect = WriteFile(path: string, contents: string) | Unlink(path: string)

  datatype HookPlan = HookPlan(commands: seq<string>, file: FileEffect, hookCommand: string)
}
