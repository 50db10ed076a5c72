/** The rows the dashboard receives from `GET /api/vaccination` and
    `GET /api/history`. */
module Records {
  import opened Wrappers

  type Month = m: int | 1 <= m <= 12 witness 1

  /** `report_date` as the time-series chart sees it: falsy, a string that
      `new Date` cannot parse, or the local year and month it parses to. */
  datatype ReportDate = Missing | Unparseable | Parsed(year: int, month: Month)

  datatype VaccinationRecord = VaccinationRecord(
    country: Option<string>,
    locationName: Option<string>,
    vaccineType: Option<string>,
    ageGroup: Option<string>,
    coverageRate: Option<real>,
    reportDate: ReportDate)

  /** One row of the upload history; `countries` and `vaccines` are the
      `", "`-joined lists the server aggregates, or null. */
  datatype UploadLogEntry = UploadLogEntry(
    id: int,
    filename: string,
    countries: Option<string>,
    vaccines: Option<string>,
    rowsImported: int)
}
