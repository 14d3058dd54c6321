/** The failures the data-collection scripts can run into. Every one of them
    is an uncaught Python exception, so it ends the run at the point where it
    is raised; the model returns it instead. */
module Errors {

  datatype Error =
    | NoSuchFile(path: string)        // FileNotFoundError: the path is not a readable file
    | NoSuchDirectory(path: string)   // writing into a directory that does not exist
    | IsADirectory(path: string)      // writing a file where a directory stands
    | MissingColumn(name: string)     // KeyError from DataFrame.drop(columns=[name])
    | SchemaMismatch                  // shards whose column lists differ

  datatype Result<T> = Ok(value: T) | Err(error: Error)
}
