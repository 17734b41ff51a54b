/** A field of a parsed JSON object that should hold a T. */
module JsonField {

  datatype Field<+T> = Absent | WrongType | Value(value: T)
}
