/** Optional values, results, and the exceptions KerbTown's core can raise. */
module Outcomes {

  datatype Option<T> = None | Some(value: T)

  /** Each fault names the .NET exception the C# code would throw at that point. */
  datatype Fault =
    | MeshWithoutExtension          // Substring(0, -1) on a mesh name without '.'
    | ConfigUrlTooShallow           // SecondLastIndex throws or yields -1 for a config URL
    | DuplicateModelUrl(url: string)  // Dictionary.Add on a model URL already present
    | MalformedRecord(modelUrl: string)  // float.Parse / ParseVector3 on a missing or bad value
    | ConfigUrlWithoutDirectory     // Substring(0, -1) on a config URL without '/'
    | MissingConfigNode(url: string)  // GameDatabase returned null: NullReferenceException
    | MissingModelEntry(key: string)  // KeyNotFoundException on the model list
    | BodyNotFound                  // no celestial object for the current body: NullReferenceException
    | RegistryKeyMissing(key: string)  // KeyNotFoundException on the instance registry

  datatype Result<T> = Ok(value: T) | Err(fault: Fault)
}
