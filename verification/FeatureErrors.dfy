/** The ways the feature tool refuses its input, and an optional value. */
module FeatureErrors {

  datatype Option<+T> = None | Some(value: T)

  datatype Error =
    | NotInGraph(name: string)
    | PartOfLoop(name: string)
    | Excluded(name: string)
    | NoSuchFeature(name: string)
    | ManyPlatforms(first: string, second: string)
    | NoPlatform

  datatype Result<+T> = Ok(value: T) | Err(error: Error)
}
