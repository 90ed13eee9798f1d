module UseFlags {
  datatype UseFlag = UseFlag(name: string, state: bool)
}
