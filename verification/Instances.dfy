/** The object behind a plugin's `void* state` pointer, shared by the chain and by the command list. */
module Instances {
  import opened Plugins

  class Instance {
    const behave: Behaviour
    var trace: Trace

    constructor (behave: Behaviour)
      ensures this.behave == behave && trace == []
    {
      this.behave := behave;
      trace := [];
    }

    /** One callback into the plugin. */
    method Call(c: Callback) returns (answer: int)
      modifies this`trace
      ensures trace == old(trace) + [c] && answer == behave(trace)
    {
      trace := trace + [c];
      answer := behave(trace);
    }
  }
}
