/** Status codes the modelled handlers complete with. */
module StatusCodes {
  const SUCCESSFUL_COMPLETION := 0x00
  const INVALID_FIELD_IN_COMMAND := 0x02
  const LBA_OUT_OF_RANGE := 0x80
}
