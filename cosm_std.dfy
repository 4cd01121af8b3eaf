/** The host-environment vocabulary the registry's queries are written against:
    fixed-width unsigned integers, the block context and the standard error. */
module CosmStd {
  import opened Wrappers

  type u32 = x: int | 0 <= x < 0x1_0000_0000
  type u64 = x: int | 0 <= x < 0x1_0000_0000_0000_0000
  type u128 = x: int | 0 <= x < 0x1_0000_0000_0000_0000_0000_0000_0000_0000

  /** The block a query is evaluated against; `time` is in nanoseconds. */
  datatype BlockInfo = BlockInfo(height: u64, time: u64)

  /** The failures the modelled queries can report.  `Overflow` stands for the
      abort of a checked integer conversion. */
  datatype StdError = NotFound(kind: string) | Overflow(reason: string)

  type StdResult<T> = Result<T, StdError>
}
