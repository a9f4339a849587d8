/**
 The command runner both packages call (`commandrunner.CommandRunner.Run`):
 it runs a command with stdout and stderr captured into one buffer and returns
 an error when the process fails. Here it is an oracle whose answer for each
 invocation is an input to the model.
 */
module Runner {

  /** The runner's answer: success, or the error it returned with the captured output. */
  datatype RunnerOutcome = Succeeded | Failed(err: string, output: string)
}
