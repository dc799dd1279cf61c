// The cells at the start of the globals that calls are made through.

module Reserved {
  // three cells for the result, and after them three for each of eight arguments
  const OFS_RETURN: nat := 1
  const OFS_PARM0: nat := 4

  lemma CellNumbers()
    ensures OFS_RETURN == 1 && OFS_PARM0 == 4
  {
  }
}
