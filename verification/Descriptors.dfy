/** Arrow C Data descriptors as objects: each is live while its release callback is set. */
module Descriptors {
  import opened Buffers
  import opened Layout
  import opened Options

  datatype SchemaInfo = SchemaInfo(format: Option<string>, nChildren: int64, dictionary: bool)

  datatype ArrayInfo = ArrayInfo(length: int64, nullCount: int64, offset: int64, nBuffers: int64, nChildren: int64,
                                 dictionary: bool, validity: Region, values: Region)

  /** What a producer hands over: its buffers are addresses, or null. */
  type Produced = a: ArrayInfo | !a.validity.Bytes? && !a.values.Bytes?
    witness ArrayInfo(0, 0, 0, 2, 0, false, Absent, Absent)

  /** An ArrowSchema. `released` counts how often the producer's callback ran through this descriptor. */
  class ArrowSchema {
    const info: SchemaInfo
    var live: bool
    ghost var released: nat

    constructor (info: SchemaInfo, live: bool)
      ensures this.info == info && this.live == live && released == 0
    {
      this.info, this.live, released := info, live, 0;
    }

    method ReleaseIfLive()
      modifies this
      ensures !live && released == old(released) + if old(live) then 1 else 0
    {
      if live {
        live := false;
        released := released + 1;
      }
    }
  }

  /** An ArrowArray. */
  class ArrowArray {
    const info: Produced
    var live: bool
    ghost var released: nat

    constructor (info: Produced, live: bool)
      ensures this.info == info && this.live == live && released == 0
    {
      this.info, this.live, released := info, live, 0;
    }

    method ReleaseIfLive()
      modifies this
      ensures !live && released == old(released) + if old(live) then 1 else 0
    {
      if live {
        live := false;
        released := released + 1;
      }
    }
  }

  /**
   The copies of a moved pair of descriptors, and the closure that releases them: what the store runs as the
   callback `token`. Which of the two copies had a callback to run is history.
   */
  class MovedArray {
    const token: nat
    ghost const hadSchema: bool
    ghost const hadArray: bool
    var schemaLive: bool
    var arrayLive: bool
    ghost var schemaReleases: nat
    ghost var arrayReleases: nat

    constructor (schemaLive: bool, arrayLive: bool, token: nat)
      ensures this.token == token && hadSchema == schemaLive && hadArray == arrayLive && HasRun(0)
    {
      this.token, hadSchema, hadArray := token, schemaLive, arrayLive;
      this.schemaLive, this.arrayLive, schemaReleases, arrayReleases := schemaLive, arrayLive, 0, 0;
    }

    /** The closure has been invoked so often: each callback that was set ran at the first time, and only then. */
    ghost predicate HasRun(times: nat)
      reads this
    {
      && arrayLive == (hadArray && times == 0) && arrayReleases == (if hadArray && times > 0 then 1 else 0)
      && schemaLive == (hadSchema && times == 0) && schemaReleases == (if hadSchema && times > 0 then 1 else 0)
    }

    /** Runs each callback that is still set. It never fails. */
    method Invoke()
      modifies this
      ensures !schemaLive && !arrayLive
      ensures arrayReleases == old(arrayReleases) + if old(arrayLive) then 1 else 0
      ensures schemaReleases == old(schemaReleases) + if old(schemaLive) then 1 else 0
      ensures forall times: nat :: old(HasRun(times)) ==> HasRun(times + 1)
    {
      if arrayLive {
        arrayLive := false;
        arrayReleases := arrayReleases + 1;
      }
      if schemaLive {
        schemaLive := false;
        schemaReleases := schemaReleases + 1;
      }
    }
  }
}
