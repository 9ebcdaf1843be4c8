/**
 * The day records the dashboard works on. A date is a whole day number
 * (days since an arbitrary epoch); a date that could not be parsed, and a
 * missing category value, are `None`.
 */
module Records {
  import opened Seqs

  datatype Option<T> = None | Some(value: T)

  type Day = int

  /** A record as read from the CSV file: the date is still text. */
  datatype RawRow = RawRow(dateText: string, season: Option<string>, year: Option<int>, totalUser: nat)

  /** A record after the date column has been coerced to days. */
  datatype Row = Row(date: Option<Day>, season: Option<string>, year: Option<int>, totalUser: nat)

  /** Sum of `total_user` over all rows. */
  function TotalUsers(rows: seq<Row>): nat
  {
    if rows == [] then 0 else TotalUsers(Init(rows)) + Last(rows).totalUser
  }
}
