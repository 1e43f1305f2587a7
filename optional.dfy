/** The "maybe nothing" value that React state such as `useState<Game | null>(null)` holds. */
module Optional {

  datatype Option<T> = None | Some(value: T)
}
