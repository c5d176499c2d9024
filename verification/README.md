# Verified models of the power-supply controller firmware

The ARM core of the power-supply controllers talks the BSMP protocol to the control system, keeps its
parameters in serial EEPROMs, shares memory with a second core and runs a set of control blocks. This
project models those of its parts that are algorithms with state of their own, and proves what they
promise over every input and every run.

| module | what it models |
|---|---|
| `Arithmetic` | the lesser of two numbers, and facts about products, quotients and remainders |
| `Bytes` | machine integers, byte sequences, the bit operations |
| `Md5` | the streaming digest, against the one-shot definition of RFC 1321 |
| `BsmpModel` | the BSMP server's tables and commands as functions of values |
| `BsmpProperties` | what holds over every run of the server, and between its commands |
| `BsmpServer` | the server with its loops, tables and response buffer, against `BsmpModel` |
| `BsmpClient` | the client, talking to that server over a link that may lose packets |
| `Eeprom` | the memories, the parameter bank and the DSP coefficients |
| `Dsp` | slew-rate limiter, low-pass filter, PI controller, second and third order filters |
| `Uart` | the console's ring buffers and its printing of numbers |
| `ScopeBuffer` | the capture buffer with its post-mortem trigger |
| `Rs485` | framing on the RS-485 line |
| `Rs485Altered` | frames altered in their size field, and the receiver that waits for ever |
| `WfmRef` | address translation between the cores and the waveform curves |
| `WfmCurve` | the waveform curves as curves of the BSMP server |

How to read the models:

- Objects that the code updates in place are classes; what a method does is stated by a function of its old
  state, and the theorems are about those functions. `Instance.State()` gives a server's tables as values.
- The bytes that variables point to are one array of memory, so that variables may overlap. A registered
  structure is its contents with a handle that stands for its address; its id is written on registration.
- Callbacks are functions: a variable's check, what a curve's write leaves in a block, a function's effect on
  memory. Whether a curve's callback finds its resource busy is the environment `Env`.
- The link of a client decides for each exchange whether both packets arrive, the request is lost or the
  answer is. A reliable link loses nothing.
- The 64 steps on an MD5 block are a parameter: the results hold for any such function.
- Floats are reals. In `Dsp`, `Times` is multiplication under a name.
- The shared RAM of `WfmRef` is taken from 0x20008000 up, as in the linker's map, and a curve's blocks lie
  within its area.

Where the promise turned out to be narrower than it looks, the exact condition is proved:

- The loop of the curve checksum compares a block's length with the number of blocks, not with the block
  size (`HashesAll`, `FullBlocksHashed`, `ChecksumMissesBlocks`, `ServerMissesBlocks`).
- A group write that is refused may have stored members before and after the refused one
  (`GroupWriteUnchanged`, `RefusedGroupWriteChanges`).
- The packed lists cannot say variables of size 0, groups of 128 members, curves without blocks or functions
  over 15 bytes, though registration admits them (`SyncedIfEncodable`, `FullServerNotSynced`).
- A client cannot write a curve of 65536 blocks, nor data that does not reach the last block (`WriteCurve`).
  Reading 65536 full blocks starts over for ever, past the end of the buffer, unless an exchange is lost
  (`ReadEnds`, `NeverEnds`, `CanReadWhen`).
- The offboard memory has no address for the password and the onboard flag, so both start where the name does
  (`ParametersApart`, `FlagOverwritesPassword`).
- A size field left over from a dropped frame can make the receiver discard the beginning of the next one
  (`SplitsReceivedExactly`, `RunReceivedExactly`, `LostAfterDrop`).
- A frame altered in its size field need not be dropped. In one interrupt it is; in pieces it is, for all
  payloads of a length and all cuttings, exactly if the new size is above the true one and the receiver
  either waits or starts again with too little (`AlteredSizeIsDropped`, `AlteredSizeExactly`,
  `AlteredSizeHandedOn`).
- A size field of 16838 to 16842 locks the receiver for good: the buffer is full before so many bytes are in
  (`UnlocksExactly`, `LockedForGood`, `LockReached`).
- Printed numbers of more than 16 characters are possible for widths above 16 (`RenderedLength`,
  `HundredTooWide`).

Where comments and code disagree, the code is modelled: `UARTwrite` puts the carriage return before the line
feed and does not stop at a null character; a curve has five bytes in the list, not three. The scratch buffer
of the coefficients is given the 66 bytes it needs (`ScratchNeeded`), not the 64 declared.

`dafny verify dfyconfig.toml` checks everything.

## Model

| member | source | states |
|---|---|---|
| Md5.DigestOfChunks | app/communication_drivers/bsmp/bsmp/src/md5/md5.c:90-161 | For every message and every way of cutting it into update calls, the final digest is the one-shot digest of sections 3.1 to 3.5 of RFC 1321 |
| Md5.Context.Update | app/communication_drivers/bsmp/bsmp/src/md5/md5.c:103-134 | Any input, split anywhere against the 64-byte blocks, extends the message taken in: state over its whole blocks, 64-bit bit counter, tail in the buffer |
| Md5.Context.AddCount | app/communication_drivers/bsmp/bsmp/src/md5/md5.c:107-113 | The two counter words with their hand-made carry count the bits of the message modulo 2^64, and give the position in the buffer |
| Md5.Context.TransformAll | app/communication_drivers/bsmp/bsmp/src/md5/md5.c:117-127 | Completing the buffered block and running over the input leaves the state of the whole message, with exactly its tail still to be buffered |
| Md5.Context.Pad | app/communication_drivers/bsmp/bsmp/src/md5/md5.c:147-151 | One 0x80 byte and zeros up to 56 modulo 64 are appended |
| Md5.Context.Final | app/communication_drivers/bsmp/bsmp/src/md5/md5.c:139-161 | The digest of the message goes into the first 16 bytes and nowhere else, and the context is wiped |
| Md5.CountCarry | app/communication_drivers/bsmp/bsmp/src/md5/md5.c:110-113 | Adding a 32-bit length to two 32-bit words with the carry test of the code is addition modulo 2^64 |
| Md5.Encode | app/communication_drivers/bsmp/bsmp/src/md5/md5.c:253-264 | Words become bytes, least significant first, and the rest of the output stays |
| Md5.Decode | app/communication_drivers/bsmp/bsmp/src/md5/md5.c:268-275 | Bytes become words, least significant first |
| Md5.DecodeEncode | app/communication_drivers/bsmp/bsmp/src/md5/md5.c:253-275 | Decoding undoes encoding |
| BsmpProperties.ReachableTables | app/communication_drivers/bsmp/bsmp/src/server.c:9-54 | After any sequence of registrations and packets from start-up: three to eight groups; the first holds all variables, the next two split them by writability; every group is a strictly increasing choice of variables with its size and writability |
| BsmpProperties.StepKeepsInv | app/communication_drivers/bsmp/bsmp/src/server.c:9-170 | Every registration and every packet keeps the invariant of the tables |
| BsmpProperties.DispatchKeepsInv | app/communication_drivers/bsmp/bsmp/src/server_priv.c:89-758 | Every command, whatever its payload, keeps the invariant and the size of memory |
| BsmpProperties.AddVarKeepsInv | app/communication_drivers/bsmp/bsmp/src/server.c:38-54 | A new variable joins the group of all and exactly one of the other two, and every group stays right |
| BsmpProperties.GroupCreateKeepsInv | app/communication_drivers/bsmp/bsmp/src/server_priv.c:486-524 | Creating a group, refused half-way or not, keeps the invariant |
| BsmpProperties.GroupCreateExactly | app/communication_drivers/bsmp/bsmp/src/server_priv.c:486-534 | A group is made exactly from a non-empty strictly increasing choice of variables while there is room; removing all groups then gives what it would have given before, which is the server before exactly if that had the standard groups only |
| BsmpServer.Instance.constructor | app/communication_drivers/bsmp/bsmp/src/server.c:9-23 | A new server has nothing registered and three empty groups |
| BsmpServer.Find | app/communication_drivers/bsmp/bsmp/src/server.c:31-33 | The scan finds a structure exactly if it is in the list already |
| BsmpServer.Instance.RegisterVariable | app/communication_drivers/bsmp/bsmp/src/server.c:25-54 | Checks in order, duplicates refused; on success the list grows by the variable, its id is its place, and the groups follow |
| BsmpServer.Instance.RegisterCurve | app/communication_drivers/bsmp/bsmp/src/server.c:56-61 | The same for curves |
| BsmpServer.Instance.RegisterFunction | app/communication_drivers/bsmp/bsmp/src/server.c:63-68 | The same for functions |
| BsmpServer.Instance.GroupAddVar | app/communication_drivers/bsmp/bsmp/src/server_priv.c:72-77 | A member is appended; size adds up, writability is a conjunction |
| BsmpServer.Instance.ProcessPacket | app/communication_drivers/bsmp/bsmp/src/server.c:129-170 | For every received packet the response holds the answer of the model: code, big-endian size of exactly the payload, payload; its length is size + 3 and fits 16 bits; the state is that of the model |
| BsmpServer.Instance.Execute | app/communication_drivers/bsmp/bsmp/src/server.c:95-160 | Each code runs its own command; any other is not supported |
| BsmpServer.Response.PutHeader | app/communication_drivers/bsmp/bsmp/src/server.c:162-167 | Code and size fields in front of the payload are the message on the wire |
| BsmpProperties.AnswerFits | app/communication_drivers/bsmp/bsmp/src/server_priv.c:89-758 | No answer of any command is longer than its 16-bit fields can say |
| BsmpProperties.WireWellFormed | app/communication_drivers/bsmp/bsmp/src/server.c:129-170 | An answer on the wire parses back into its code and payload |
| BsmpProperties.ErrorsChangeNothing | app/communication_drivers/bsmp/bsmp/src/server_priv.c:89-758 | An error answer leaves memory, groups, curves and checksums alone, with the one exception of a group write refused for a value |
| BsmpServer.Instance.QueryVersion | app/communication_drivers/bsmp/bsmp/src/server_priv.c:89-106 | Version 2.20.0, or a payload size error |
| BsmpServer.Instance.VarQueryList | app/communication_drivers/bsmp/bsmp/src/server_priv.c:110-131 | One byte a variable, in the order of ids: size in seven bits, writable bit |
| BsmpServer.Instance.VarRead | app/communication_drivers/bsmp/bsmp/src/server_priv.c:133-159 | The bytes of the variable, or the first error that applies |
| BsmpServer.Instance.VarWrite | app/communication_drivers/bsmp/bsmp/src/server_priv.c:161-201 | The bytes go to the variable and nowhere else, exactly if size, permission and value check allow |
| BsmpServer.Instance.VarWriteRead | app/communication_drivers/bsmp/bsmp/src/server_priv.c:203-251 | The write comes first, so reading the same or an overlapping variable gives the new bytes |
| BsmpServer.Instance.VarBinOp | app/communication_drivers/bsmp/bsmp/src/server_priv.c:253-296 | The variable is combined with the mask by the operation of the code |
| BsmpServer.Instance.Operate | app/communication_drivers/bsmp/bsmp/src/bsmp.c:15-24 | The countdown loop combines every byte with its mask byte, and touches no other |
| Bytes.XorBytesTwice | app/communication_drivers/bsmp/bsmp/src/bsmp.c:23-34 | Toggling the same bits twice gives every byte back |
| BsmpServer.Instance.GroupQueryList | app/communication_drivers/bsmp/bsmp/src/server_priv.c:300-320 | One byte a group: the number of members added to the writable bit |
| BsmpServer.Instance.GroupQuery | app/communication_drivers/bsmp/bsmp/src/server_priv.c:322-344 | The ids of the members, in order |
| BsmpServer.Instance.GroupRead | app/communication_drivers/bsmp/bsmp/src/server_priv.c:346-381 | The values of the members one after the other |
| BsmpServer.Instance.GroupWrite | app/communication_drivers/bsmp/bsmp/src/server_priv.c:383-432 | Each member takes its slice unless its check refuses it; one refusal is answered with an error |
| BsmpServer.Instance.GroupBinOp | app/communication_drivers/bsmp/bsmp/src/server_priv.c:434-484 | Each member is combined with its slice of the mask |
| BsmpServer.Instance.GroupCreate | app/communication_drivers/bsmp/bsmp/src/server_priv.c:486-524 | The new group or the first error that applies; a bad id half-way leaves the visible groups as they were |
| BsmpServer.Instance.FillSlot | app/communication_drivers/bsmp/bsmp/src/server_priv.c:497-520 | The loop accepts exactly bounded, strictly increasing ids, and touches no visible group |
| BsmpServer.Instance.GroupRemoveAll | app/communication_drivers/bsmp/bsmp/src/server_priv.c:526-534 | Only the three standard groups are left |
| BsmpProperties.GroupReadIsVarReads | app/communication_drivers/bsmp/bsmp/src/server_priv.c:346-381 | Reading a group answers what reading its variables one by one answers |
| BsmpProperties.GroupWriteIsVarWrites | app/communication_drivers/bsmp/bsmp/src/server_priv.c:383-432 | Writing a group leaves what writing its variables with their slices leaves; all of those succeed if and only if the group write does and no member has size 0 |
| BsmpProperties.GroupBinOpIsVarBinOps | app/communication_drivers/bsmp/bsmp/src/server_priv.c:434-484 | A binary operation on a group leaves what the operations on its variables leave |
| BsmpProperties.GroupWriteThenRead | app/communication_drivers/bsmp/bsmp/src/server_priv.c:346-432 | If a write to members that do not overlap is answered with OK, reading the group gives the bytes written |
| BsmpProperties.GroupToggleTwice | app/communication_drivers/bsmp/bsmp/src/server_priv.c:434-484 | The same XOR or TOGGLE twice restores the server, even when members overlap |
| BsmpProperties.GroupWriteUnchanged | app/communication_drivers/bsmp/bsmp/src/server_priv.c:412-430 | A group write, refused for a value or not, leaves the server alone if and only if at every address the last slice accepted there, of members that may overlap, is what memory holds |
| BsmpProperties.WrittenAt | app/communication_drivers/bsmp/bsmp/src/server_priv.c:412-430 | After a group write each byte is that of the last member there to accept its slice, or what it was |
| BsmpProperties.RefusedGroupWriteChanges | app/communication_drivers/bsmp/bsmp/src/server_priv.c:412-430 | A concrete server on which a refused group write has changed a variable |
| BsmpServer.Instance.CurveQueryList | app/communication_drivers/bsmp/bsmp/src/server_priv.c:538-562 | Five bytes a curve: flag, block size, number of blocks modulo 65536 |
| BsmpServer.Instance.CurveQueryCsum | app/communication_drivers/bsmp/bsmp/src/server_priv.c:564-580 | The stored checksum |
| BsmpServer.Instance.CurveBlockRequest | app/communication_drivers/bsmp/bsmp/src/server_priv.c:582-615 | Id and offset back with the bytes the callback gave, or the first error that applies |
| BsmpServer.Instance.CurveBlock | app/communication_drivers/bsmp/bsmp/src/server_priv.c:617-656 | Exactly an accepted block is stored, and resets the checksum |
| BsmpServer.Instance.HashBlocks | app/communication_drivers/bsmp/bsmp/src/server_priv.c:671-697 | The loop hashes the blocks up to and including the first it takes for short, and succeeds exactly if those can be read |
| BsmpServer.Instance.CurveRecalcCsum | app/communication_drivers/bsmp/bsmp/src/server_priv.c:658-703 | The digest of the hashed blocks is stored and answered, or nothing changes |
| BsmpProperties.ReachableChecksums | app/communication_drivers/bsmp/bsmp/src/server_priv.c:617-703 | In every reachable state a stored checksum is zero or the digest of the blocks as they are now, of all of them unless the early exit loses some |
| BsmpProperties.HashesAll | app/communication_drivers/bsmp/bsmp/src/server_priv.c:694-695 | The digest covers the whole curve if and only if no block shorter than the number of blocks is followed by a non-empty one |
| BsmpProperties.FullBlocksHashed | app/communication_drivers/bsmp/bsmp/src/server_priv.c:694-695 | With full blocks the early exit loses nothing if and only if there is one block at most, or blocks are at least as long as there are blocks, or empty |
| BsmpProperties.ChecksumMissesBlocks | app/communication_drivers/bsmp/bsmp/src/server_priv.c:694-695 | Three full blocks of two bytes: the checksum is that of the first block, whatever the last one holds |
| BsmpProperties.ServerMissesBlocks | app/communication_drivers/bsmp/bsmp/src/server_priv.c:658-703 | A server with that curve, asked for the checksum, answers and stores that of the first block |
| BsmpServer.Instance.FuncQueryList | app/communication_drivers/bsmp/bsmp/src/server_priv.c:707-726 | One byte a function: the low four bits of each size |
| BsmpServer.Instance.FuncExecute | app/communication_drivers/bsmp/bsmp/src/server_priv.c:728-758 | Return code decides between output and error byte; memory is what the function leaves |
| BsmpClient.Client.Command | app/communication_drivers/bsmp/bsmp/src/client.c:41-83 | A request is processed exactly once unless lost, and its answer comes back as the server gave it |
| BsmpClient.Client.GetVersion | app/communication_drivers/bsmp/bsmp/src/client.c:85-118 | On success the version on record is 2.20.0, the one the server answers with; otherwise it stays |
| BsmpClient.Client.UpdateVarsList | app/communication_drivers/bsmp/bsmp/src/client.c:120-153 | The variable list decoded byte by byte, or left as it was |
| BsmpClient.Client.UpdateGroupsList | app/communication_drivers/bsmp/bsmp/src/client.c:155-222 | Every group with its members and size; after a failure the list is empty or as it was |
| BsmpClient.Client.UpdateCurvesList | app/communication_drivers/bsmp/bsmp/src/client.c:224-275 | Every curve with its sizes and checksum; a checksum whose query failed stays zero |
| BsmpClient.Client.UpdateFuncsList | app/communication_drivers/bsmp/bsmp/src/client.c:277-307 | The function list decoded byte by byte, or left as it was |
| BsmpClient.Client.Init | app/communication_drivers/bsmp/bsmp/src/client.c:309-349 | Over a reliable link it succeeds, and the tables of the client are then those of the server if and only if the packed lists can express those |
| BsmpClient.SyncedIfEncodable | app/communication_drivers/bsmp/bsmp/src/client.c:120-307 | Decoded tables equal the tables of the server if and only if no variable has size 0, no group 128 members, no curve 0 blocks, no function more than 15 bytes in or out |
| BsmpClient.FullServerNotSynced | app/communication_drivers/bsmp/bsmp/src/server_priv.c:316-317 | With 128 variables, which registration admits, the group of all of them is told to be empty, and the group list of a client is not in step |
| BsmpClient.VarByteRoundTrip | app/communication_drivers/bsmp/bsmp/src/server_priv.c:123-129 | Seven bits carry the sizes 1 to 128, 128 as 0, and exactly those |
| BsmpClient.GroupByteRoundTrip | app/communication_drivers/bsmp/bsmp/src/server_priv.c:311-318 | The byte of a group carries up to 127 members, and exactly those |
| BsmpClient.CurveBytesRoundTrip | app/communication_drivers/bsmp/bsmp/src/server_priv.c:549-560 | Two bytes carry 1 to 65536 blocks, 65536 as 0, and exactly those |
| BsmpClient.FuncByteRoundTrip | app/communication_drivers/bsmp/bsmp/src/server_priv.c:717-724 | Four bits each carry sizes up to 15, and exactly those |
| BsmpClient.StaysSynced | app/communication_drivers/bsmp/bsmp/src/client.c:590-640 | After groups come or go, asking for the group list keeps the client in step if and only if no group has 128 members |
| BsmpClient.Client.CreateGroup | app/communication_drivers/bsmp/bsmp/src/client.c:590-622 | Success means the server has the group; for a client in step it is exactly the group of the variables chosen, and over a reliable link it is made exactly from a non-empty strictly increasing choice while there is room, and the client stays in step |
| BsmpClient.CreatesChosen | app/communication_drivers/bsmp/bsmp/src/client.c:601-611 | The ids a client in step sends are those of the variables it means, so the server makes the group of those or refuses for want of order or room |
| BsmpClient.Client.RemoveAllGroups | app/communication_drivers/bsmp/bsmp/src/client.c:624-640 | Success means the server has its standard groups only, and the client stays in step |
| BsmpClient.Client.RequestCurveBlock | app/communication_drivers/bsmp/bsmp/src/client.c:642-669 | The bytes of the block at the place asked for, exactly if the block exists, can be read and the exchange is not lost |
| BsmpClient.Client.ReadCurve | app/communication_drivers/bsmp/bsmp/src/client.c:671-705 | The blocks up to the first short one, concatenated; over a reliable link exactly if those can be read; over any link the outcome is that of the turns of the loop |
| BsmpClient.NeverEnds | app/communication_drivers/bsmp/bsmp/src/client.c:688-702 | With 65536 full blocks and nothing lost, after any number of turns the loop is still running, its counter has gone round, and its place in the buffer is past the room for the curve from the second round on |
| BsmpClient.ReadEnds | app/communication_drivers/bsmp/bsmp/src/client.c:688-702 | A read ends if and only if there are fewer than 65536 blocks, or one is short or refused, or an exchange is lost |
| BsmpClient.CanReadWhen | app/communication_drivers/bsmp/bsmp/src/client.c:671-705 | A buffer of the size of the curve is enough, over a link that loses nothing, if and only if the curve ends the read |
| BsmpClient.EndlessRead | app/communication_drivers/bsmp/bsmp/src/client.c:688-702 | A curve that registration admits and whose reading never ends |
| BsmpClient.Client.SendCurveBlock | app/communication_drivers/bsmp/bsmp/src/client.c:707-739 | A block is stored exactly if it is not empty, fits, exists and is accepted |
| BsmpClient.Client.WriteCurve | app/communication_drivers/bsmp/bsmp/src/client.c:741-770 | One chunk to each block; with callbacks that accept, success if and only if there are fewer than 65536 blocks and the data reaches the last one |
| BsmpClient.Client.WriteThenRead | app/communication_drivers/bsmp/bsmp/src/client.c:671-770 | Written and read back with callbacks that keep what they are given: works exactly when the data reaches the last block, and gives all that fits, so exactly the data if it is no longer than the curve |
| BsmpClient.ChunksRead | app/communication_drivers/bsmp/bsmp/src/client.c:671-770 | Chunks read up to the first short one concatenate to as much of the data as the curve holds |
| BsmpClient.OverlaidIsRead | app/communication_drivers/bsmp/bsmp/src/client.c:671-770 | With callbacks that only overlay a block, what comes back is what was written if and only if the data fills the curve |
| Eeprom.SaveLoseLoad | app/communication_drivers/parameters/ps_parameters.c:457-511 | A bank and the DSP modules saved to one memory in either order, lost, and loaded again: every element is back, and password and flag cells are untouched |
| Eeprom.SavesCommute | app/communication_drivers/parameters/ps_parameters.c:43-174 | Both orders of saving give the same memory, from which everything reads back, and which keeps the cells from 0x0EF0 on |
| Eeprom.OwnAddress | app/communication_drivers/parameters/ps_parameters.c:43-174 | Every byte of every parameter of the bank has an address of its own |
| Eeprom.ParametersApart | app/communication_drivers/parameters/ps_parameters.c:43-174 | Two parameters overlap if and only if the memory is the offboard one and both are among name, password and flag, which all start at address 0 there |
| Eeprom.FlagOverwritesPassword | app/communication_drivers/parameters/ps_parameters.c:398-427 | Saved offboard after the password, the flag replaces the first byte of it |
| Eeprom.OwnDspAddress | app/communication_drivers/i2c_onboard/eeprom.c:47-81 | Every byte of every set of coefficients has an address of its own |
| Eeprom.SavesApart | app/communication_drivers/parameters/ps_parameters.c:106-107 | Bank below 0x0760, coefficients from 0x0C00 to 0x0EF0, password and flag above both |
| Eeprom.ElementInPage | app/communication_drivers/parameters/ps_parameters.c:337-427 | Every element of every parameter lies within one 32-byte page, on either memory |
| Eeprom.SetInPages | app/communication_drivers/i2c_onboard/eeprom.c:140-173 | Every burst of a set of coefficients lies within one page |
| Eeprom.ScratchNeeded | app/communication_drivers/i2c_onboard/eeprom.c:83-158 | Address and set need up to 66 bytes of the scratch buffer, and more than the 64 declared exactly for the third-order filters |
| Eeprom.BurstStaysInPage | app/communication_drivers/i2c_onboard/i2c_onboard.c:86-102 | A burst of any length changes its own page only |
| Eeprom.BurstInPage | app/communication_drivers/i2c_onboard/i2c_onboard.c:86-102 | A burst that ends before its page does is a plain copy |
| Eeprom.Device.Write | app/communication_drivers/i2c_onboard/i2c_onboard.c:86-102 | A message writes its bytes from its 13-bit address on, unless write-protected |
| Eeprom.Device.Read | app/communication_drivers/i2c_onboard/i2c_onboard.c:45-84 | Bytes from the address on, at least two |
| Eeprom.Bank.constructor | app/communication_drivers/parameters/ps_parameters.c:184-335 | Whatever memory held, after initialization every parameter has its size and count, and zeros |
| Eeprom.Bank.InitParam | app/communication_drivers/parameters/ps_parameters.c:569-639 | Whatever memory held, exactly the bytes of the elements are zeroed, each as wide as its type says; no other parameter, and no byte behind the last element, changes |
| Eeprom.TypesFit | app/communication_drivers/parameters/ps_parameters.c:184-335 | Every parameter is registered with a type as wide as its element in the address tables |
| Eeprom.Bank.SaveParam | app/communication_drivers/parameters/ps_parameters.c:337-427 | One element goes to its place and nothing else changes, exactly if the element exists |
| Eeprom.Bank.LoadParam | app/communication_drivers/parameters/ps_parameters.c:370-455 | One element comes from its place and nothing else changes, exactly if the element exists |
| Eeprom.Bank.SaveBank | app/communication_drivers/parameters/ps_parameters.c:457-497 | Memory holds every parameter in its place and is as before everywhere else |
| Eeprom.Bank.LoadBank | app/communication_drivers/parameters/ps_parameters.c:471-511 | Every parameter of the bank is what memory holds; password and flag stay |
| Eeprom.BankReadsBack | app/communication_drivers/parameters/ps_parameters.c:457-511 | Nothing saved later overwrites a parameter saved earlier |
| Eeprom.Coefficients.SaveSet | app/communication_drivers/i2c_onboard/eeprom.c:88-260 | A set goes to its place in one burst or two, exactly for the classes that are kept |
| Eeprom.Coefficients.LoadSet | app/communication_drivers/i2c_onboard/eeprom.c:262-430 | A set comes from its place in one read or two, exactly for the classes that are kept |
| Eeprom.Coefficients.SaveModules | app/communication_drivers/i2c_onboard/eeprom.c:474-486 | Memory holds every set in its place and is as before everywhere else |
| Eeprom.Coefficients.LoadModules | app/communication_drivers/i2c_onboard/eeprom.c:488-500 | Every set is what memory holds |
| Eeprom.DspReadsBack | app/communication_drivers/i2c_onboard/eeprom.c:474-500 | Nothing saved later overwrites a set saved earlier |
| Dsp.TransposedIsDirect | app/communication_drivers/control/dsp.c:371-492 | Over every run from reset, clipped or not and with coefficients changed at any time, the transposed filter gives the outputs of the direct difference equation with zero history |
| Dsp.Iir2p2z.Run | app/communication_drivers/control/dsp.c:383-402 | The output is that of the direct equation of second order over all samples since reset |
| Dsp.Iir3p3z.Run | app/communication_drivers/control/dsp.c:468-492 | The same of third order |
| Dsp.PiBounded | app/communication_drivers/control/dsp.c:269-287 | After every run the output is within the limits, and the integral within their distance, if and only if the limits are in order; otherwise the output sits on the lower one |
| Dsp.PiIsLinear | app/communication_drivers/control/dsp.c:269-287 | Nothing has been clipped if and only if the unlimited values stay in the limits; then the output is kp * in + ki * sum of all inputs |
| Dsp.Pi.Run | app/communication_drivers/control/dsp.c:269-287 | One step, in either order of clipping |
| Dsp.SlewApproach | app/communication_drivers/control/dsp.c:136-150 | On a constant input the distance shrinks by the limit at every step, never past zero |
| Dsp.SlewReaches | app/communication_drivers/control/dsp.c:136-150 | The input is reached exactly after n steps if and only if n is at least distance over limit |
| Dsp.SlewBounded | app/communication_drivers/control/dsp.c:136-150 | No step is larger than the limit; with a negative limit every step is its opposite |
| Dsp.SlewLimiter.Run | app/communication_drivers/control/dsp.c:136-150 | Bypassed, the input; otherwise a bounded step that never moves away |
| Dsp.LpfUnitGain | app/communication_drivers/control/dsp.c:176-187 | The coefficients satisfy a + 2k = 1 |
| Dsp.LpfStaysInHull | app/communication_drivers/control/dsp.c:206-214 | For 0 < wt <= 2 every output of a run stays in any interval holding its state and inputs |
| Dsp.LpfHullExactly | app/communication_drivers/control/dsp.c:176-214 | The bound on wt is exact |
| Dsp.LpfError | app/communication_drivers/control/dsp.c:206-214 | On a constant input the error after n steps is a^n times the first one |
| Dsp.LowPass.Cfg | app/communication_drivers/control/dsp.c:176-187 | The coefficients of the cut-off frequency |
| Dsp.LowPass.Run | app/communication_drivers/control/dsp.c:206-214 | One step of the filter |
| Uart.Ring.IsFull | uartstdio.c:146-157 | Full means all slots but one are taken |
| Uart.Ring.Count | uartstdio.c:206-219 | The count by the indices, across the wrap |
| Uart.Ring.Put | uartstdio.c:66-70 | A byte is appended |
| Uart.Ring.Take | uartstdio.c:66-70 | The oldest byte is removed |
| Uart.Ring.Peek | uartstdio.c:1032-1062 | The first position of the byte among those unread, across the wrap, or -1 |
| Uart.Console.Write | uartstdio.c:383-433 | The buffer takes as much of the expanded text as it has room for; bytes sent and bytes buffered stay exactly the bytes accepted, in order; the count is of characters taken whole |
| Uart.Console.Fill | uartstdio.c:395-424 | A prefix of the text with a carriage return before each line feed, as long as the free slots |
| Uart.Console.PrimeTransmit | uartstdio.c:227-248 | As many bytes as the UART has room for move from the buffer to the line, in order |
| Uart.LeadingPower | uartstdio.c:892-898 | The largest power of the base not above the value, or 1, despite products that wrap in 32 bits |
| Uart.WrappedIsSeen | uartstdio.c:893-895 | Multiplying in 32 bits and dividing back never takes a wrapped product for one that is not above the value |
| Uart.NumeralStandsFor | uartstdio.c:940-943 | The digits evaluate back to the value, with no leading zero |
| Uart.Digits | uartstdio.c:940-943 | The loop prints exactly the digits, most significant first |
| Uart.Convert | uartstdio.c:892-948 | Digits with sign and padding, the sign before zeros and after spaces |
| Uart.RenderedLength | uartstdio.c:892-948 | For widths up to 15 the length is the larger of width and digits with sign; 16 characters hold it if and only if the width is at most 16 or at least 15 of it would be padding |
| Uart.HundredTooWide | uartstdio.c:892-948 | A hundred printed 17 wide takes 17 characters |
| Uart.ConvertSigned | uartstdio.c:789-820 | The magnitude of the 32-bit argument, for the most negative one too, with its sign |
| ScopeBuffer.RingHoldsLast | app/communication_drivers/common/structs.c:122-143 | From the start, after at least as many samples as slots, the ring holds exactly the last ones, the oldest at the index |
| ScopeBuffer.BufferingHoldsLast | app/communication_drivers/common/structs.c:122-143 | At any time the ring is the last samples behind what they have not yet pushed out |
| ScopeBuffer.PostmortemFills | app/communication_drivers/common/structs.c:144-155 | After the trigger exactly the slots up to the last but one are filled, and the next sample disables the buffer |
| ScopeBuffer.CaptureIsConsecutive | app/communication_drivers/common/structs.c:82-161 | After a capture all slots but the last hold consecutive samples in order, across the trigger, and nothing changes any more |
| ScopeBuffer.Buffer.InsertSample | app/communication_drivers/common/structs.c:122-164 | One insertion in every status; an index out of range is reset and disables |
| ScopeBuffer.Buffer.TestLimits | app/communication_drivers/common/structs.c:172-193 | Tells exactly whether a sample is outside the tolerance |
| Rs485.FrameIsReceived | app/communication_drivers/rs485/rs485.c:109-166 | However the interrupts cut a frame up, its packet is handed on once to each unit addressed, and the receiver is ready for the next |
| Rs485.NothingEarly | app/communication_drivers/rs485/rs485.c:109-166 | Before as many bytes are in as their size field announces, nothing is handed on and all of them stay in the buffer, however they are cut up |
| Rs485.RunIsReceived | app/communication_drivers/rs485/rs485.c:109-166 | Over a run of frames, each cut up in its own way and clean against the size field the one before it leaves, every packet is handed on in order, and nothing else |
| Rs485.PacketsAreClean | app/communication_drivers/rs485/rs485.c:109-166 | Payloads of less than 0x4100 bytes make such a run on any line whose field is not beyond the buffer |
| Rs485.SplitsReceivedExactly | app/communication_drivers/rs485/rs485.c:147-163 | Every split of a frame is received if and only if neither the size field left in the buffer nor the new high byte with the old low byte exceeds the buffer size |
| Rs485.RunReceivedExactly | app/communication_drivers/rs485/rs485.c:109-166 | A run of frames is received packet by packet under every cutting if and only if each frame is clean against what the one before it leaves |
| Rs485.DropLeavesSize | app/communication_drivers/rs485/rs485.c:147-163 | An interrupt announcing more than the buffer holds is dropped, and its size field stays |
| Rs485.LostAfterDrop | app/communication_drivers/rs485/rs485.c:147-163 | From any idle line such an interrupt reaches the failing state, and the next frame, cut after two bytes, is handed to nobody |
| Rs485.AlteredIsDropped | app/communication_drivers/rs485/rs485.c:244-311 | One altered byte, other than in the size field, makes the frame dropped |
| Rs485Altered.AlteredSizeExactly | app/communication_drivers/rs485/rs485.c:128-165 | From a line whose field is within the buffer: the frames with s payload bytes, once their field says another size, are all dropped under every cutting if and only if that size is above s and either it, and its high byte over the old low byte, are within the buffer, or s is below 3, or s is 3 and the five bytes that may be left over are for nobody |
| Rs485Altered.OneByteResizes | app/communication_drivers/rs485/rs485.c:147 | Altering one byte of the field gives such a frame, with another size |
| Rs485Altered.AlteredSizeIsDropped | app/communication_drivers/rs485/rs485.c:147-163 | Arriving in one interrupt it hands nothing on, and the receiver is ready again if and only if the field says too little or more than the buffer size |
| Rs485Altered.AlteredSizeHandedOn | app/communication_drivers/rs485/rs485.c:147-163 | A small frame, altered in one byte of its size field, is handed on as a packet never sent |
| Rs485Altered.UnlocksExactly | app/communication_drivers/rs485/rs485.c:136-163 | Once its size field is in, the receiver becomes idle with some further bytes if and only if the field is not one of the five sizes up to that of the buffer |
| Rs485Altered.LockedForGood | app/communication_drivers/rs485/rs485.c:136-163 | With such a field it hands nothing on and stays that way, whatever comes |
| Rs485Altered.LockReached | app/communication_drivers/rs485/rs485.c:136-163 | One interrupt of four bytes brings any idle line there |
| Rs485Altered.AlteredSizeLocks | app/communication_drivers/rs485/rs485.c:136-163 | So does a frame altered to such a size, however it is cut up |
| Rs485.FrameSum | app/communication_drivers/rs485/rs485.c:215-242 | Every frame sent sums to 0 modulo 256 |
| Rs485.Node.TakeIn | app/communication_drivers/rs485/rs485.c:134-145 | The receive loop stores the bytes there is room for and adds them up |
| Rs485.Node.OnInterrupt | app/communication_drivers/rs485/rs485.c:128-165 | One receive interrupt at a low baud rate |
| Rs485.Node.ProcessData | app/communication_drivers/rs485/rs485.c:244-311 | Hands a packet on for its address only with a zero sum, and starts afresh |
| Rs485.Node.Transmit | app/communication_drivers/rs485/rs485.c:215-242 | Address, packet and checksum go out as a frame |
| WfmRef.TranslationsUndo | app/communication_drivers/ipc/ipc_lib.c:174-214 | Translating there and back is the identity if and only if the address is even and in the shared RAM or from the message RAM up |
| WfmRef.TranslationIsLinear | app/communication_drivers/ipc/ipc_lib.c:174-190 | Two bytes on one side are one word on the other, exactly as long as both addresses are in the same of three stretches: below RAM, RAM, from the message RAM up |
| WfmRef.Waveforms.constructor | app/communication_drivers/control/wfmref/wfmref.c:29-55 | After initialization of a curve its end pointer is two words below the index pointer, which is one element past the end |
| WfmRef.Waveforms.ReadBlock | app/communication_drivers/bsmp/bsmp_lib.c:2212-2230 | The bytes of the block, reached through the pointer of the other core |
| WfmRef.Waveforms.WriteBlock | app/communication_drivers/bsmp/bsmp_lib.c:2239-2272 | Refused exactly while the selected curve plays; otherwise the bytes, any number of them, go to the block and to nothing else, and the pointers mark the end of this write, half a word short if that is odd |
| WfmRef.ReadsLastWritten | app/communication_drivers/bsmp/bsmp_lib.c:2212-2272 | Over any sequence of block writes to a curve every byte read is the one last written there |
| WfmRef.Waveforms.Writes | app/communication_drivers/bsmp/bsmp_lib.c:2239-2272 | After any run of requests to both curves, refused ones among them, each curve holds what its accepted writes leave and its pointers mark the end of the last |
| WfmRef.Waveforms.WritesThenRead | app/communication_drivers/bsmp/bsmp_lib.c:2212-2272 | After such a run a block reads as the bytes last written by requests that were not refused |
| WfmCurve.CurveOfOk | app/communication_drivers/bsmp/bsmp_lib.c:2212-2272 | A waveform is a curve that registration admits, with full blocks and a callback that overlays them |
| WfmCurve.WriteStores | app/communication_drivers/bsmp/bsmp_lib.c:2239-2272 | A block copied into the area is a block stored in the curve, and no other |
| WfmCurve.ReadCallback | app/communication_drivers/bsmp/bsmp_lib.c:2212-2230 | The callback of a read gives the block of that curve |
| WfmCurve.WriteCallback | app/communication_drivers/bsmp/bsmp_lib.c:2239-2272 | The callback of a write stores a block in that curve, or refuses and changes nothing |
| WfmCurve.WholeWrite | app/communication_drivers/bsmp/bsmp/src/client.c:741-770 | A whole curve written by the client leaves its data at the start of the area, and the rest as it was |
| WfmCurve.WaveformIsRead | app/communication_drivers/bsmp/bsmp/src/client.c:671-770 | A waveform written and read back by the client is what was written if and only if the data fills it |

## Left out

- Hooks, `custom_md5` and the list of modified variables of the BSMP server: nothing registers a hook or a digest.
- Null server, packet and structure pointers, and changing a registered structure behind the server's back.
- The other client calls (single variables, whole groups, functions): one request and one answer each. The
  client's `bsmp_recalc_checksum` expects another code than the server gives.
- BsmpClient.Client.RequestCurveBlock: for an entry that agrees with the server's curve but for the checksum.
- BsmpClient.Client.SendCurveBlock: for such an entry.
- BsmpClient.Client.WriteCurve: for such an entry.
- BsmpClient.Client.ReadCurve: for such an entry; asks that its loop ends with every block in the buffer, for
  which `CanReadWhen` gives the condition, as what an overrun overwrites is not modelled.
- Eeprom.Bank.InitParam: asks for fewer than 256 elements, as an 8-bit counter never gets to more; no
  parameter has over 64.
- Garbled or foreign packets on the client's link: packets arrive whole or not at all.
- The gate in front of the server that refuses commands by access level, and the command functions themselves.
- The 64 steps of MD5 on one block.
- Default values of the parameter bank, the start-up choice between memories, and the conversions of
  `set_param` and `get_param`.
- Toggling the write-protect pin around reads of large coefficient sets, delays, and the I2C bus itself.
- Rounding, overflow and NaN of floats; the notch set-up with its cosine, feed-forward and vector product.
- `%c`, `%s` and the scan of the format string; receiving and echoing on the console; flushes.
- `reset_buffer` and `size_buffer` of the capture buffer, which miss the last slot and subtract the wrong way round.
- The high baud rate of RS-485, where a frame has to arrive in one interrupt; setting addresses and baud rate.
- Waveform curves whose area is smaller than their blocks; altered frames on a line whose old size field is
  beyond the buffer, where intact ones get lost already; the scope's curve, whose writes are always refused.
- Everything that only moves data to hardware registers.
