/** What the readers of the batch index share: how it names objects, and the most it answers at once. */
module ObjectIndex {

  type ObjectKey = string

  const MAX_BATCHES_PER_PAGE: nat := 64
}
