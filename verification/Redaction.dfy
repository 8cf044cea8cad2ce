/** What is written in place of a redacted value, here and in recordings. */
module Redaction {
  const MARKER: string := "[redacted]"
}
