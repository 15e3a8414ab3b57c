/** The nullable references of the view (`Rect?`, `Bitmap?`) as a value. */
module Optional {
  datatype Option<+T> = None | Some(value: T)
}
