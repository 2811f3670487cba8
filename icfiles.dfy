/** The open output file `IcFile` of the writer: the bytes written so far
    and whether it has been closed. `tell()` is the number of bytes
    written, since the file is opened with mode 'w' (truncated) and never
    seeks. */
module IcFiles {
  import opened Bytes

  class IcFile {
    var bytes: seq<byte>
    var closed: bool

    /** `open(destination_file, 'w')`: an empty, open file. */
    constructor Open()
      ensures bytes == [] && !closed
    {
      bytes := [];
      closed := false;
    }

    /** `IcFile.tell()` */
    function Tell(): nat
      reads this
    {
      |bytes|
    }

    /** `IcFile.write(data)`: appends, and changes nothing already written. */
    method Write(data: seq<byte>)
      requires !closed
      modifies this
      ensures bytes == old(bytes) + data && !closed
    {
      bytes := bytes + data;
    }

    /** `IcFile.close()` */
    method Close()
      modifies this
      ensures closed && bytes == old(bytes)
    {
      closed := true;
    }
  }
}
