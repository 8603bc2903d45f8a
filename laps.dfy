/** The lap record the frontend holds, one JSON object of the records list. */
module Laps {

  /** Fields, in JSON: `username`, `map_name`, `lap_time`, `screenshot_url`,
      `uploaded_at` (the backend's ISO-8601 text). */
  datatype LapRecord = LapRecord(
    username: string,
    mapName: string,
    lapTime: string,
    screenshotUrl: string,
    uploadedAt: string)
}
