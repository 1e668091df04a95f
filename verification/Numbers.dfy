/** The larger and the smaller of two integers. */
module Numbers {
  function Max(x: int, y: int): int { if x >= y then x else y }
  function Min(x: int, y: int): int { if x <= y then x else y }
}
