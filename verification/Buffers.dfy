/** What a shared buffer holds: its memory, its validity bitmap, and the metadata that describes them. */
module Buffers {
  import opened Layout

  /** Memory is absent, owned by the store, or lent by a foreign producer. */
  datatype Region = Absent | Bytes(bytes: seq<bv8>) | Foreign(address: nat)

  datatype Metadata = Metadata(dtype: int, format: string, shape: seq<int64>, strides: seq<int64>,
                               offset: int64, nullCount: int64, validityBytes: int, validityBitOffset: int64,
                               readOnly: bool, ownership: string, memorySpace: string)

  datatype View = View(data: Region, len: int, validity: Region, meta: Metadata)

  /** The metadata of a buffer that is published without any. */
  const PLAIN := Metadata(0, "", [], [], 0, 0, 0, 0, false, "", "")

  /** Metadata that a buffer may be published with. */
  predicate MetadataOk(meta: Metadata) {
    && meta.memorySpace in ["", "host"]
    && meta.offset >= 0 && meta.nullCount >= -1 && meta.validityBytes >= 0 && meta.validityBitOffset >= 0
    && (meta.strides != [] ==> |meta.strides| == |meta.shape|)
    && Admissible(meta.shape)
  }

  method ValidateMetadata(meta: Metadata) returns (ok: bool)
    ensures ok <==> MetadataOk(meta)
  {
    if meta.memorySpace != "" && meta.memorySpace != "host" {
      return false;
    }
    if meta.offset < 0 || meta.nullCount < -1 || meta.validityBytes < 0 || meta.validityBitOffset < 0 {
      return false;
    }
    if |meta.strides| > 0 && |meta.shape| == 0 {
      return false;
    }
    if |meta.strides| > 0 && |meta.strides| != |meta.shape| {
      return false;
    }
    ok := ValidateShape(meta.shape);
  }

  function Default(value: string, fallback: string): string {
    if value != "" then value else fallback
  }

  /** The view of a buffer after its metadata has been applied: an own bitmap determines its length. */
  function Described(data: Region, len: int, validity: Region, validityLen: int, meta: Metadata): View {
    var bytes := if validity.Bytes? && |validity.bytes| > 0 then |validity.bytes|
                 else if meta.validityBytes > 0 then meta.validityBytes else validityLen;
    View(data, len, validity,
         meta.(validityBytes := bytes, ownership := Default(meta.ownership, "omnivm"),
               memorySpace := Default(meta.memorySpace, "host")))
  }

  /** The pointers and sizes that a lease exposes. Empty memory is exposed as a null pointer. */
  datatype Exposed = Exposed(data: Region, len: int, validity: Region, validityLen: int, meta: Metadata)

  function Expose(v: View): Exposed {
    var data := if v.data.Bytes? && |v.data.bytes| > 0 then v.data
                else if v.data.Foreign? && v.len > 0 then v.data else Absent;
    var validity := if v.validity.Bytes? && |v.validity.bytes| > 0 then v.validity
                    else if v.validity.Foreign? && v.meta.validityBytes > 0 then v.validity else Absent;
    Exposed(data, v.len, validity, if validity.Absent? then 0 else v.meta.validityBytes, v.meta)
  }

  /** Foreign memory that may be published: sizes are not negative, and memory that is not empty is there. */
  predicate ImportOk(data: Region, len: int, validity: Region, validityLen: int, meta: Metadata) {
    MetadataOk(meta) && len >= 0 && (len > 0 ==> !data.Absent?) && validityLen >= 0
      && (validityLen > 0 ==> !validity.Absent?)
  }
}
