/** The model-side strategy flags: `exists` by default, `in` once asked for. */
module UseInDecorator {

  class Model {
    /** The model's class, by which its relations are looked up. */
    const name: string
    var useExists: bool
    var useIn: bool

    /** The two flags are mutually exclusive. */
    ghost predicate Exclusive()
      reads this
    {
      !(useExists && useIn)
    }

    constructor (name: string)
      ensures this.name == name
      ensures !useExists && !useIn && Exclusive()
    {
      this.name := name;
      useExists := false;
      useIn := false;
    }

    /** Use `in` and disable `exists`; a second call changes nothing. */
    method UseIn()
      modifies this
      ensures !useExists && useIn && Exclusive()
      ensures old(useIn) && !old(useExists) ==> unchanged(this)
    {
      useExists := false;
      useIn := true;
    }

    /** Reports the `in` flag and changes nothing. */
    method IsUseIn() returns (b: bool)
      ensures b == useIn
    {
      b := useIn;
    }
  }
}
