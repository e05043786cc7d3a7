/** The nullable values of the source: C# `string?` / `int?` and TypeScript's optional
    (`undefined`) fields are all modelled by this one datatype. */
module Optional {

  datatype Option<+T> = None | Some(value: T)
}
