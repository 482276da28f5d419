/** Go's `os.FileMode` (an alias of `io/fs.FileMode`): a 32-bit word whose
    high bits give the kind of file and whose low nine bits give the
    permissions. The constants are those of Go's io/fs package. */
module FileModes {

  type FileMode = bv32

  const ModeDir: FileMode        := 0x8000_0000  // 1 << 31
  const ModeAppend: FileMode     := 0x4000_0000  // 1 << 30
  const ModeExclusive: FileMode  := 0x2000_0000  // 1 << 29
  const ModeTemporary: FileMode  := 0x1000_0000  // 1 << 28
  const ModeSymlink: FileMode    := 0x0800_0000  // 1 << 27
  const ModeDevice: FileMode     := 0x0400_0000  // 1 << 26
  const ModeNamedPipe: FileMode  := 0x0200_0000  // 1 << 25
  const ModeSocket: FileMode     := 0x0100_0000  // 1 << 24
  const ModeSetuid: FileMode     := 0x0080_0000  // 1 << 23
  const ModeSetgid: FileMode     := 0x0040_0000  // 1 << 22
  const ModeCharDevice: FileMode := 0x0020_0000  // 1 << 21
  const ModeSticky: FileMode     := 0x0010_0000  // 1 << 20
  const ModeIrregular: FileMode  := 0x0008_0000  // 1 << 19

  /** The mask of the type bits. */
  const ModeType: FileMode :=
    ModeDir | ModeSymlink | ModeNamedPipe | ModeSocket | ModeDevice | ModeCharDevice | ModeIrregular

  /** The Unix permission bits. */
  const ModePerm: FileMode := 0x1FF  // 0o777
}
