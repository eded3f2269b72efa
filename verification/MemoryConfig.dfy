/** The limits of MemoryCache. */
module MemoryConfig {
  import opened Wrappers

  const DEFAULT_MAX_MEMORY: int := 64 * 1024 * 1024
  const DEFAULT_MAX_ITEM_SIZE: int := 4 * 1024 * 1024
  const EVICTION_TARGET_PERCENT: int := 95

  datatype Config = Config(maxMemory: int, maxItemSize: int)

  datatype ConfigError = NegativeMemory | NegativeItemSize | ItemAboveMemory

  /** Zero means default; an explicit item limit above the memory limit is refused while a default
      one is lowered.  Whatever is accepted lets the largest item fit into memory. */
  function Normalized(c: Config): (r: Result<Config, ConfigError>)
    ensures r.Ok? ==> 0 < r.value.maxItemSize <= r.value.maxMemory
    ensures r.Ok? <==>
            && 0 <= c.maxMemory
            && 0 <= c.maxItemSize <= if c.maxMemory == 0 then DEFAULT_MAX_MEMORY else c.maxMemory
    ensures r == Err(NegativeMemory) <==> c.maxMemory < 0
    ensures r == Err(NegativeItemSize) <==> c.maxItemSize < 0 <= c.maxMemory
    ensures r.Ok? ==> r.value.maxMemory == if c.maxMemory == 0 then DEFAULT_MAX_MEMORY else c.maxMemory
    ensures r.Ok? && c.maxItemSize != 0 ==> r.value.maxItemSize == c.maxItemSize
    ensures r.Ok? && c.maxItemSize == 0 ==>
              && r.value.maxItemSize <= DEFAULT_MAX_ITEM_SIZE
              && (r.value.maxItemSize < DEFAULT_MAX_ITEM_SIZE ==> r.value.maxItemSize == r.value.maxMemory)
  {
    if c.maxMemory < 0 then Err(NegativeMemory)
    else if c.maxItemSize < 0 then Err(NegativeItemSize)
    else
      var memory := if c.maxMemory == 0 then DEFAULT_MAX_MEMORY else c.maxMemory;
      if c.maxItemSize == 0 then
        Ok(Config(memory, if DEFAULT_MAX_ITEM_SIZE > memory then memory else DEFAULT_MAX_ITEM_SIZE))
      else if c.maxItemSize > memory then Err(ItemAboveMemory)
      else Ok(Config(memory, c.maxItemSize))
  }
}
