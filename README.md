# Fallthrough rule-engine plugin, modelled in Dafny

The iRODS fallthrough rule-engine plugin intercepts seven policy enforcement points (PEPs) that the server fires around API calls. It logs that each one happened. Then it answers `SYS_NOT_SUPPORTED`, so that the rule-engine plugins loaded after it still run.

The model covers the whole plugin source file:

- `byte_order.dfy` (module `ByteOrder`): what a C routine sees of `std::string::c_str()` (the bytes before the first NUL) and the sign of `strcmp`. It also proves the properties the binary search relies on: strcmp sees only the C string, answers 0 exactly for equal C strings, flips sign when its operands are swapped, and "less" is transitive.
- `fallthrough.dfy` (module `Fallthrough`):
  - the PEP table `Peps`, proved strictly ascending in `strcmp` order;
  - the seven stub handlers;
  - `rule_exists`, a `std::binary_search` run on an array through a lower-bound loop, proved equal to membership of the name's C string in the table;
  - `list_rules`, an append to the caller's vector;
  - `exec_rule`, with its static handler map.
- `plugin_factory.dfy` (module `PluginFactory`): the operation table that `plugin_factory` registers.

A `char` stands for one byte of a `std::string`. Its code point is the byte's unsigned value, which is the value `strcmp` compares. `rodsLog` becomes a returned list of `LogRecord(level, text)` values. `irods::error` becomes `Status` (`Success`, or `Error(code, message)`).

The model uses the event identifiers exactly as the code spells them (`pep_api_coll_create_post`, ...).

`rule_exists` passes `c_str()` to `strcmp`, so a name with an embedded NUL is compared only up to that NUL. `exec_rule` looks the whole `std::string` up in its map. The model keeps both behaviours. It proves that the two lookups agree on NUL-free names (`DispatchAgreesWithRuleExists`). It also proves that they disagree on one concrete name with an embedded NUL (`EmbeddedNulSplitsLookups`).

On an unknown rule, `exec_rule` substitutes the name into its log line. The message it returns in the error, however, is the format string itself, with its `%s` left in (`UnsupportedFormat`).

## Model

| member | source | states |
|---|---|---|
| ByteOrder.CStr | src/libirods_rule_engine_plugin-fallthrough.cpp:92 | `c_str()` as a C routine reads it: a NUL-free prefix of the name that stops at the first NUL |
| ByteOrder.Strcmp | src/libirods_rule_engine_plugin-fallthrough.cpp:93 | `strcmp` as a sign (-1, 0 or 1): bytes compared as unsigned values, stopping at the first difference or the first NUL |
| ByteOrder.Less | src/libirods_rule_engine_plugin-fallthrough.cpp:92-94 | the comparator `strcmp(l, r) < 0` handed to `std::binary_search`; it is a strict order: when it holds, the swapped comparison is positive and the two C strings differ |
| ByteOrder.CStrOfNulFree | src/libirods_rule_engine_plugin-fallthrough.cpp:92 | a name without an embedded NUL is seen whole |
| ByteOrder.StrcmpSeesCStr | src/libirods_rule_engine_plugin-fallthrough.cpp:92-93 | strcmp's answer depends only on the bytes before each operand's first NUL |
| ByteOrder.StrcmpZeroIff | src/libirods_rule_engine_plugin-fallthrough.cpp:92-93 | strcmp answers 0 if and only if the two C strings are equal |
| ByteOrder.StrcmpAntisymmetric | src/libirods_rule_engine_plugin-fallthrough.cpp:93 | swapping strcmp's operands negates its sign |
| ByteOrder.LessTransitive | src/libirods_rule_engine_plugin-fallthrough.cpp:92-94 | the comparator `strcmp(l, r) < 0` given to the binary search is transitive |
| ByteOrder.LessAtFirstDifference | src/libirods_rule_engine_plugin-fallthrough.cpp:93 | strcmp reports "less" at the first differing byte when that byte is lower and no NUL precedes it |
| ByteOrder.AscendingFromNeighbours | src/libirods_rule_engine_plugin-fallthrough.cpp:18-19 | a sequence whose neighbours ascend is strictly ascending throughout |
| Fallthrough.Peps | src/libirods_rule_engine_plugin-fallthrough.cpp:20-28 | the `peps` table: the seven PEP names in table order |
| Fallthrough.PepsNulFree | src/libirods_rule_engine_plugin-fallthrough.cpp:20-28 | no table entry contains a NUL |
| Fallthrough.PepsNeighbourAscending | src/libirods_rule_engine_plugin-fallthrough.cpp:20-28 | each table entry is below the next in strcmp order |
| Fallthrough.PepsStrictlyAscending | src/libirods_rule_engine_plugin-fallthrough.cpp:18-28 | the table is sorted as its comment claims: strictly ascending in strcmp order, as binary search needs |
| Fallthrough.PepsDistinct | src/libirods_rule_engine_plugin-fallthrough.cpp:18-28 | the table has no duplicate entries |
| Fallthrough.Handle | src/libirods_rule_engine_plugin-fallthrough.cpp:36-76 | every handler declines with `SYS_NOT_SUPPORTED` "not really an error" and logs exactly one notice, whatever its arguments |
| Fallthrough.HandlerNoticeNamesHandler | src/libirods_rule_engine_plugin-fallthrough.cpp:36-76 | each handler's notice is `>>> fallthrough::` followed by that handler's own name |
| Fallthrough.RuleExists | src/libirods_rule_engine_plugin-fallthrough.cpp:87-97 | sets the answer to true if and only if the name's C string is one of the seven table entries, and always returns success |
| Fallthrough.BinarySearch | src/libirods_rule_engine_plugin-fallthrough.cpp:92-94 | the strcmp binary search over a strictly ascending NUL-free array finds the key if and only if the key's C string is an element |
| Fallthrough.ListRules | src/libirods_rule_engine_plugin-fallthrough.cpp:99-103 | the caller's vector keeps what it held and gains the seven table entries, in table order, after it; the result is success |
| Fallthrough.ListedRuleExists | src/libirods_rule_engine_plugin-fallthrough.cpp:99-103 | every listed name is recognised by `rule_exists` and has a handler |
| Fallthrough.HandlersMatchPeps | src/libirods_rule_engine_plugin-fallthrough.cpp:112-120 | the handler map's keys are exactly the table entries (seven of them), and each key maps to the handler of the same name |
| Fallthrough.Handlers | src/libirods_rule_engine_plugin-fallthrough.cpp:112-120 | the function-local static map from each `peps` entry to its handler |
| Fallthrough.HandlersDomain | src/libirods_rule_engine_plugin-fallthrough.cpp:112-120 | the map's keys are the seven table entries, and since they are distinct the map has seven entries |
| Fallthrough.HandlersByName | src/libirods_rule_engine_plugin-fallthrough.cpp:112-120 | every key is paired with the handler declared under that same name, for example `peps[1]` with `pep_api_data_obj_close_post` |
| Fallthrough.DistinctElementsCount | src/libirods_rule_engine_plugin-fallthrough.cpp:18-28 | a sequence without duplicates has as many distinct elements as entries |
| Fallthrough.ExecRule | src/libirods_rule_engine_plugin-fallthrough.cpp:105-135 | never succeeds: always `SYS_NOT_SUPPORTED`, with exactly one log line, a notice if and only if the name has a handler |
| Fallthrough.ExecRuleOnPep | src/libirods_rule_engine_plugin-fallthrough.cpp:122-125 | on a table name: "not really an error", and one notice naming that rule |
| Fallthrough.ExecRuleOnOtherName | src/libirods_rule_engine_plugin-fallthrough.cpp:128-134 | on any other name: the unformatted "rule not supported in rule engine plugin" message, and one error line naming the plugin and the rule's C string |
| Fallthrough.ExecRuleIgnoresArguments | src/libirods_rule_engine_plugin-fallthrough.cpp:105-135 | the outcome depends on the name alone, not on the arguments or the callback, and no state carries over between calls |
| Fallthrough.DispatchAgreesWithRuleExists | src/libirods_rule_engine_plugin-fallthrough.cpp:87-126 | for every name, taking the handler path in `exec_rule` implies that `rule_exists` reports the name; for a NUL-free name the converse holds too |
| Fallthrough.EmbeddedNulSplitsLookups | src/libirods_rule_engine_plugin-fallthrough.cpp:87-126 | `pep_api_rm_coll_post` followed by a NUL and `x` is reported by `rule_exists` but has no handler |
| Fallthrough.CStrCutsAtNul | src/libirods_rule_engine_plugin-fallthrough.cpp:92 | a NUL-free name followed by a NUL and anything else reads as that name |
| PluginFactory.Factory | src/libirods_rule_engine_plugin-fallthrough.cpp:144-163 | keeps the instance name and context as given and registers exactly the seven operation names |
| PluginFactory.RunLambda | src/libirods_rule_engine_plugin-fallthrough.cpp:148-149 | the two lambdas log nothing, and only `no_op` succeeds |
| PluginFactory.FactoryOperations | src/libirods_rule_engine_plugin-fallthrough.cpp:152-160 | seven entries; `start` and `stop` succeed; `exec_rule_text` and `exec_rule_expression` answer "Not supported"; the other three run the rule-engine operations |

## Left out

- `rodsLog` and the host's logging sink: each call is a `LogRecord` in the returned outcome. Log formatting beyond substituting the one `%s` is not modelled.
- The `std::list<boost::any>` arguments and `irods::callback`: they are opaque `HostValue` and `Callback` values that are passed through unread, because the code never inspects them.
- `pluggable_rule_engine`, `add_operation`, the `std::function` wrapping, the `extern "C"` entry point and the `new` allocation: these are host plumbing. The factory is a value holding a map from operation name to `Operation`.
- Thread safety of the function-local static map's initialisation: a concurrency concern, not modelled. The map is a constant.
- The numeric value of `SYS_NOT_SUPPORTED`, and the file, line and function that `ERROR` records: host headers that are not part of this model. The code is the abstract `SysNotSupported`.
- Names are assumed to hold chars no greater than 255, so that the order on `char` is the unsigned-byte order `strcmp` uses. Nothing in the model enforces this, and no proof depends on it.
- The static `constexpr` table: `RuleExists` copies the constant table into a fresh array on each call. The answer is the same.
