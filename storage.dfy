/**
  The slice of the Hadoop `FileSystem` client the benchmark uses, as an
  abstract file system: the set of paths that exist and the history of the
  calls one task makes on it.
 */
module Storage {
  import opened JavaArith

  /** One call on the file system, recorded in the order it is made. */
  datatype FsCall =
    | ExistsCall(path: string)
    | CreateCall(path: string, overwrite: bool, bufferSize: Int32, replication: Int16, blockSize: Int64)
    | WriteCall(path: string, keySize: Int64)

  class FileSystem {
    var files: set<string>
    var calls: seq<FsCall>

    constructor (existing: set<string>)
      ensures files == existing && calls == []
    {
      files := existing;
      calls := [];
    }

    /** `exists(path)`: asks, changes nothing. */
    method Exists(path: string) returns (present: bool)
      modifies this`calls
      ensures present <==> path in files
      ensures calls == old(calls) + [ExistsCall(path)]
    {
      present := path in files;
      calls := calls + [ExistsCall(path)];
    }

    /** `create(path, overwrite, bufferSize, replication, blockSize)`: without
        `overwrite` the creation is exclusive and fails
        (`FileAlreadyExistsException`) when the path exists. */
    method Create(path: string, overwrite: bool, bufferSize: Int32, replication: Int16, blockSize: Int64)
      returns (created: bool)
      modifies this
      ensures created <==> overwrite || path !in old(files)
      ensures files == if created then old(files) + {path} else old(files)
      ensures calls == old(calls) + [CreateCall(path, overwrite, bufferSize, replication, blockSize)]
    {
      created := overwrite || path !in files;
      if created {
        files := files + {path};
      }
      calls := calls + [CreateCall(path, overwrite, bufferSize, replication, blockSize)];
    }

    /** Other tasks of the run create `paths`; this task makes no call. */
    method CreatedElsewhere(paths: set<string>)
      modifies this`files
      ensures files == old(files) + paths
    {
      files := files + paths;
    }

    /** The content generator's write of `keySize` bytes into the stream
        opened on `path`; the file already exists, and its bytes are not
        modelled. */
    method Write(path: string, keySize: Int64)
      modifies this`calls
      ensures calls == old(calls) + [WriteCall(path, keySize)]
    {
      calls := calls + [WriteCall(path, keySize)];
    }
  }
}
