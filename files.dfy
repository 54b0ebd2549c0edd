/** The file system as the core sees it: each existing path holds a sequence
    of records (the CSV codec that turns them into bytes is not modelled). */
module Files {

  /** One record: the fields of one line, already split by the codec. */
  type Record = seq<string>

  /** The files that exist, each with its records. */
  class FileStore {
    var files: map<string, seq<Record>>

    constructor (files: map<string, seq<Record>>)
      ensures this.files == files
    {
      this.files := files;
    }
  }
}
