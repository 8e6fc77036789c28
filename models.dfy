/** The `Observation` table row: one reading from a device. */
module Models {
  import opened Calendar

  /** A row of the `observation` table. Latitude and longitude are stored as
      floating point in the database; only comparisons are made on them, so
      they are reals here. `device` is the id of the owning device. */
  datatype Observation = Observation(
    id: int,
    dateLogged: Date,
    timeLogged: Time,
    timeZoneOffset: string,
    latitude: real,
    longitude: real,
    waterTemp: int,
    airTemp: int,
    windSpeed: int,
    windDirection: int,
    humidity: int,
    hazePercent: int,
    precipitationMm: int,
    radiationBq: int,
    device: int)

  /** What the column types guarantee of a stored row: a real date and a
      real time of day. */
  predicate WellFormed(o: Observation)
  {
    ValidDate(o.dateLogged) && ValidTime(o.timeLogged)
  }
}
