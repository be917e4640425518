/** What reading a JSON file back can give: nothing, garbage, or a record. */
module Storage {

  datatype Stored<+T> =
    | Absent      // the file does not exist
    | Unreadable  // it exists but opening or parsing it raised
    | Present(record: T)
}
