/** The configuration of one supervised task, the exit status the operating
    system reports for a child, and the spawn request the supervisor makes. */
module Config {
  import opened Wrappers

  /** Rust's fixed-width integers that appear in the configuration and in
      the operating system's answers. */
  newtype i8 = x: int | -0x80 <= x < 0x80
  newtype i32 = x: int | -0x8000_0000 <= x < 0x8000_0000
  newtype u32 = x: int | 0 <= x < 0x1_0000_0000

  /** A child's process identifier, as `Child::id` returns it. */
  type Pid = u32

  /** Restart policy of one task. */
  datatype RestartCondition = Never | OnError | Always

  /** One `[[task]]` entry of the configuration file, as the loader delivers it.
      `arguments` and `nonErrorCodes` are carried but never read by the supervisor. */
  datatype ProcessConfig = ProcessConfig(
    name: string,
    path: string,
    arguments: seq<string>,
    nonErrorCodes: seq<i8>,
    restart: RestartCondition)

  /** What `try_wait` reports for an ended child: `code` is `None` when the
      child was ended by a signal. */
  datatype ExitStatus = ExitStatus(code: Option<i32>)

  /** A request to the operating system to start a program with arguments
      (`Command::new(program).args(args)`), standard output piped. */
  datatype Command = Command(program: string, args: seq<string>)

  /** The spawn request `new_process(path)` makes: the program alone, with no arguments. */
  function NewProcess(path: string): Command
  {
    Command(path, [])
  }
}
