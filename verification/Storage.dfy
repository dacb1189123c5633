/** A directory: file names and contents. */
module Storage {
  import opened Crc32

  class Disk {
    var files: map<string, seq<byte>>

    constructor ()
      ensures files == map[]
    {
      files := map[];
    }
  }
}
