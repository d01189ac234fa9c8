/**
 * Protocol constants of the flasher stub: command identifiers, response
 * status values, error codes, expected payload sizes, and the two-byte
 * status/error pair that ends a response.  Every constant is declared as a
 * `byte`, so each one fitting in a single protocol byte is checked by its
 * type.
 */
module Commands {
  import opened Common

  const ESP_FLASH_BEGIN: byte := 0x02
  const ESP_FLASH_DATA: byte := 0x03
  const ESP_FLASH_END: byte := 0x04
  const ESP_MEM_BEGIN: byte := 0x05
  const ESP_MEM_DATA: byte := 0x06
  const ESP_MEM_END: byte := 0x07
  const ESP_SYNC: byte := 0x08
  const ESP_WRITE_REG: byte := 0x09
  const ESP_READ_REG: byte := 0x0A
  const ESP_SPI_SET_PARAMS: byte := 0x0B
  const ESP_SPI_ATTACH: byte := 0x0D
  const ESP_CHANGE_BAUDRATE: byte := 0x0F
  const ESP_FLASH_DEFL_BEGIN: byte := 0x10
  const ESP_FLASH_DEFL_DATA: byte := 0x11
  const ESP_FLASH_DEFL_END: byte := 0x12
  const ESP_SPI_FLASH_MD5: byte := 0x13
  const ESP_GET_SECURITY_INFO: byte := 0x14
  const ESP_READ_FLASH: byte := 0xD0
  const ESP_ERASE_FLASH: byte := 0xD1
  const ESP_ERASE_REGION: byte := 0xD2
  const ESP_RUN_USER_CODE: byte := 0xD3

  /** Every command the stub knows, in the order of its header. */
  const COMMAND_IDS: seq<byte> := [
    ESP_FLASH_BEGIN, ESP_FLASH_DATA, ESP_FLASH_END, ESP_MEM_BEGIN, ESP_MEM_DATA,
    ESP_MEM_END, ESP_SYNC, ESP_WRITE_REG, ESP_READ_REG, ESP_SPI_SET_PARAMS,
    ESP_SPI_ATTACH, ESP_CHANGE_BAUDRATE, ESP_FLASH_DEFL_BEGIN, ESP_FLASH_DEFL_DATA,
    ESP_FLASH_DEFL_END, ESP_SPI_FLASH_MD5, ESP_GET_SECURITY_INFO, ESP_READ_FLASH,
    ESP_ERASE_FLASH, ESP_ERASE_REGION, ESP_RUN_USER_CODE]

  const SUCCESS: byte := 0x00
  const FAIL: byte := 0x01

  const NO_ERROR: byte := 0x00
  const BAD_DATA_LEN: byte := 0xC0
  const BAD_DATA_CHECKSUM: byte := 0xC1
  const BAD_BLOCKSIZE: byte := 0xC2
  const INVALID_COMMAND: byte := 0xC3
  const FAILED_SPI_OP: byte := 0xC4
  const FAILED_SPI_UNLOCK: byte := 0xC5
  const NOT_IN_FLASH_MODE: byte := 0xC6
  const INFLATE_ERROR: byte := 0xC7
  const NOT_ENOUGH_DATA: byte := 0xC8
  const TOO_MUCH_DATA: byte := 0xC9
  const CMD_NOT_IMPLEMENTED: byte := 0xFF

  /** The error codes a failing response may carry. */
  const ERROR_CODES: seq<byte> := [
    BAD_DATA_LEN, BAD_DATA_CHECKSUM, BAD_BLOCKSIZE, INVALID_COMMAND, FAILED_SPI_OP,
    FAILED_SPI_UNLOCK, NOT_IN_FLASH_MODE, INFLATE_ERROR, NOT_ENOUGH_DATA, TOO_MUCH_DATA,
    CMD_NOT_IMPLEMENTED]

  const FLASH_BEGIN_SIZE := 16
  const FLASH_DATA_HEADER_SIZE := 16
  const FLASH_END_SIZE := 4
  const MEM_BEGIN_SIZE := 16
  const MEM_DATA_HEADER_SIZE := 16
  const MEM_END_SIZE := 8
  const WRITE_REG_ENTRY_SIZE := 16
  const READ_REG_SIZE := 4
  const SPI_ATTACH_SIZE := 4
  const SPI_SET_PARAMS_SIZE := 24
  const CHANGE_BAUDRATE_SIZE := 8
  const FLASH_DEFL_BEGIN_SIZE := 4
  const FLASH_DEFL_DATA_SIZE := 16
  const FLASH_DEFL_END_SIZE := 4
  const SPI_FLASH_MD5_SIZE := 16
  const GET_SECURITY_INFO_SIZE := 0
  const READ_FLASH_SIZE := 16
  const ERASE_FLASH_SIZE := 0
  const ERASE_REGION_SIZE := 8

  /** No two elements of `s` are equal. */
  predicate Distinct(s: seq<byte>)
  {
    forall i, j :: 0 <= i < j < |s| ==> s[i] != s[j]
  }

  /** The 21 command identifiers are pairwise distinct. */
  lemma CommandIdsDistinct()
    ensures |COMMAND_IDS| == 21 && Distinct(COMMAND_IDS)
  {
  }

  /** The two statuses differ, and no error code is mistaken for NO_ERROR. */
  lemma StatusAndErrorCodes()
    ensures SUCCESS != FAIL
    ensures Distinct(ERROR_CODES) && NO_ERROR !in ERROR_CODES
  {
  }

  /** `struct esp_response`: the status byte and the error byte. */
  datatype EspResponse = EspResponse(status: byte, error: byte)

  /** The response on the wire: two bytes, status first. */
  function ResponseBytes(r: EspResponse): (b: seq<byte>)
    ensures |b| == 2
  {
    [r.status, r.error]
  }

  /** Reads a response back from its first two bytes. */
  function ParseResponse(b: seq<byte>): (r: Option<EspResponse>)
    ensures r.Some? <==> |b| >= 2
  {
    if |b| < 2 then None else Some(EspResponse(b[0], b[1]))
  }

  /** Parsing the bytes of a response gives it back. */
  lemma ResponseRoundTrip(r: EspResponse)
    ensures ParseResponse(ResponseBytes(r)) == Some(r)
  {
  }

  /** Any two-byte prefix is the encoding of the response parsed from it. */
  lemma ResponseBytesRoundTrip(b: seq<byte>)
    requires |b| >= 2
    ensures ResponseBytes(ParseResponse(b).value) == b[..2]
  {
  }
}
