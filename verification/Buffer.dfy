/** A response under construction: the three edits the program makes to one in place. */
module Buffer {
  import opened Bytes
  import opened Header
  import opened Edns

  class ResponseBuffer {
    var bytes: seq<byte>

    constructor (initial: seq<byte>)
      ensures bytes == initial
    {
      bytes := initial;
    }

    /** Put the requester's id in the first two octets, if they exist. */
    method SetId(id: u16)
      modifies this
      ensures bytes == PatchId(old(bytes), id)
    {
      if |bytes| >= 2 { bytes := PutU16(bytes, 0, id); }
    }

    /** `rewrite_response_flags_for_client`. */
    method SetClientFlags(rd: bool, cd: bool)
      modifies this
      ensures bytes == RewriteFlags(old(bytes), rd, cd)
    {
      if !HasHeader(bytes) { return; }
      var flags2, flags3 := bytes[2] - bytes[2] % 2, bytes[3] / 64 * 64 + bytes[3] % 16;
      if rd { flags2 := flags2 + 1; }
      if cd { flags3 := flags3 + 0x10; }
      bytes := bytes[2 := flags2][3 := flags3];
    }

    /** `append_client_opt`: a message whose ARCOUNT is already 65535 is left alone. */
    method AppendClientOpt(udpSize: u16, dnssecOk: bool)
      modifies this
      ensures bytes == AppendOpt(old(bytes), udpSize, dnssecOk)
    {
      if |bytes| < HEADER_SIZE { return; }
      var arcount := U16At(bytes, 10);
      if arcount == 0xFFFF { return; }
      bytes := bytes + OptBytes(udpSize, dnssecOk);
      bytes := PutU16(bytes, 10, arcount + 1);
    }
  }
}
