/**
 Route parameters: `:id` as Express writes them, `{id}` as the contract does
 (`src/lib/expressRoutes.ts`, `src/lib/prismaMutationSites.ts`).
 */
module ParamPaths {
  import opened Texts

  const COLON: Unit := 0x3A
  const OPEN_BRACE: Unit := 0x7B
  const CLOSE_BRACE: Unit := 0x7D

  /** How many word units start `t`. */
  function WordRun(t: Text): (n: nat)
    ensures n <= |t|
    ensures forall k :: 0 <= k < n ==> IsWord(t[k])
    ensures n < |t| ==> !IsWord(t[n])
  {
    if t == [] || !IsWord(t[0]) then 0 else 1 + WordRun(t[1..])
  }

  /** `path.replace(/:([A-Za-z0-9_]+)/g, '{$1}')` */
  function BraceParams(t: Text): Text
    decreases |t|
  {
    if t == [] then []
    else
      var n := if t[0] == COLON then WordRun(t[1..]) else 0;
      if n > 0 then [OPEN_BRACE] + t[1..n + 1] + [CLOSE_BRACE] + BraceParams(t[n + 1..])
      else [t[0]] + BraceParams(t[1..])
  }
}
