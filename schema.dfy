/** The rows of the `iv_visits` table as the pages read them with `select("*")`. */
module Schema {
  import opened Wrappers
  import opened ImageField

  datatype VisitRow = VisitRow(
    id: string,
    title: string,
    locationCity: string,
    locationState: string,
    visitDate: string,          // ISO `YYYY-MM-DD`
    description: Option<string>,
    department: string,
    industry: string,
    availableSeats: int,
    imageUrl: RawImageField,
    registrationUrl: Option<string>)

  function VisitDateOf(row: VisitRow): string
  {
    row.visitDate
  }
}
