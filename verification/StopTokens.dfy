module StopTokens {

  /** std::stop_token as one thread sees it: `polls` tests from now the answer becomes, and remains, "yes". */
  class StopToken {
    var polls: nat

    constructor (polls: nat)
      ensures this.polls == polls
    {
      this.polls := polls;
    }

    method StopRequested() returns (b: bool)
      modifies this
      ensures b == (old(polls) == 0)
      ensures polls == if b then 0 else old(polls) - 1
    {
      b := polls == 0;
      polls := if b then 0 else polls - 1;
    }
  }
}
