# Encrypted upload with checksums: a verified model

A C++ client registers with a Python server, fetches an AES key wrapped with its RSA key, uploads an
encrypted file, and compares checksums: equal, it confirms (1104); different, it complains and sends
again (1105, 1103), and after the fourth attempt it gives up (1106). The server keeps two SQL tables,
the files on disk, and two in-memory indexes rebuilt from the tables at start-up. This project models
both programs and the bytes between them in Dafny and proves what they promise together.

`dafny verify dfyconfig.toml` checks everything.

## The parts

**The checksum** (`Bytes`, `Gf2`, `BitRegister`, `CrcTable`, `PosixCksum`, `CrcEngines`, `BurstDetection`).
Polynomials over GF(2) are natural numbers with exclusive or and carry-less product. The standard's
value (IEEE Std 1003.1-2017, Shell and Utilities, `cksum`, DESCRIPTION) is *defined* by polynomial
division of the message and a length field, with no register in sight; the length field is *defined* by
the number its octets denote and by being the shortest; both are shown to be unique. The 256 literals are
checked once against a bit-serial step; the table step is then eight bit steps; the register is the
remainder; the octets of the length loops are the length field; so both engines, with their own loops,
return the standard's value. The bit step is a linear bijection, which gives burst detection: two files
of one length that differ only inside 32 consecutive bits never share a checksum.

**The stores** (`Text`, `Paths`, `Stores`, `StoreInvariants`, `Server`). `Stores` says what each request
does to the five stores as one value; `Server` is the program, with classes whose methods change tables,
disk and indexes step by step, each proved to do what `Stores` says. Tables and indexes agree after every
run of requests, and the `files` insert never meets its primary key. The disk is keyed by where a path
leads, so a file name that contains a separator or is `.` or `..` may lead into another client's
directory. With such a name a client does overwrite another's file behind its row (`ClimbingUpload`); a
request keeps the disk in step with the tables exactly when no other row's path leads where its own leads
(`AgreementExactly`), which plain names always ensure, and among plain names a request touches only the
file it names. The start-up scan, a loop over the tables in any order, restores exactly the indexes that
were lost, and where a file row has no client it is stated how far the scan gets. What each request means for
tables, disk, indexes and answer is also said in full without the functions that compute it
(`RegistrationMeans` to `GivingUpMeans`).

**The bytes** (`Wire`, `Session`, `HexId`, `LineFiles`, `ClientDetails`). Each format is written by one
program and read by the other. The server's session loop over a concatenation of requests recovers that
very list if and only if each request was readable at its own turn: it registers, its sender is known by
then, or it is no more than its code. A client may thus register and go on under the id it has just been
given. The client recovers every response. Every request and response is also spelled out octet by octet. The hexadecimal id and the three-line `me.info` make round
trips.

**The protocol** (`Protocol`, `ProtocolRuns`, `Upload`, `KeyExchange`, `FirstRun`). `Protocol` interleaves any number
of clients, one session per client id, with the server and a channel that may replace the contents of any
file in transit; a step is one whole handler on either side, a client may vanish and come back, the server
may restart. After every run in which uploads have plain names, a row marked verified stands for a file on
disk whose checksum is that of the octets its client had read. After every run, with an RSA library that
does its part, the key a client holds once an exchange is over is the key the server looks up for its id;
and, whatever the library, the retry counter counts the 1105s. That such runs achieve something is proved
too: after any run a newcomer can register, get its key and upload a file that arrives undamaged, and ends
with a verified row over just those octets; when it arrives damaged, the damage is stored unverified and
the client complains and sends again. `Upload` is the client's own mutually
recursive code, composed with the server program, while other clients' requests come in between. Its
recursion is well-founded, and it sends exactly the codes its verdicts call for and leaves the stores as
stated. The server does not answer an upload it cannot decrypt or store, nor a 1106 whose file it cannot
remove, and the client's read has no time limit: in those cases, and in no others, an upload waits for
ever, which the methods report as `answered` being false (`SpoiledUploadIsNotAnswered` is one such input).
`KeyExchange` does the same for the exchange of keys, and `FirstRun` puts registration, exchange and upload
together as client/main.cpp does. The channel is a function of what is sent, and the record of a client's
requests holds them whole, so that an upload is shown to send the encrypted file and not only its code.

Octets are naturals below 256 and 32-bit words naturals below 2^32; wrap-around is written out
wherever C++ has it (`ClientCrc.CRC`: the length field). Text is a sequence of octets. `Protocol.System`
carries a `source` map that no program reads: for each stored path, the octets its client had read when
it made the upload now stored.

## Model

| member | source | states |
|---|---|---|
| CrcTable.TablePair | client/crc.cpp:3-56 | the literals: entries 2j and 2j+1 are one polynomial step of entry j, without and with the generator added |
| CrcTable.TableIsEightSteps | server/crc.py:4-261 | each of the 256 entries is its index, put in the top octet, after eight bit steps |
| CrcTable.TableStepIsOctet | client/crc.cpp:70 | the table-driven step is eight bit-serial steps, for every register and octet |
| BitRegister.BitStepIsBijective | client/crc.cpp:68-71 | a bit step is undone by an explicit inverse, on both sides |
| BitRegister.FeedIsBijective | client/crc.cpp:65-74 | feeding one message is a permutation of the registers, undone octet by octet by an explicit inverse |
| BitRegister.FeedLinear | client/crc.cpp:65-74 | the register after the bytewise sum of two messages, from the sum of two registers, is the sum of the two results |
| BitRegister.FeedConcat | server/crc.py:271-276 | feeding in pieces is feeding the whole, for any cut |
| PosixCksum.RemainderIsUnique | client/crc.cpp:65-86 | a polynomial has at most one remainder below degree 32 modulo G |
| PosixCksum.FeedIsRemainder | client/crc.cpp:65-74 | the register after a message is the remainder of the message times x^32 modulo G |
| PosixCksum.LengthOctetsDenote | client/crc.cpp:80-84 | the octets of the length loop denote the length, the first the least significant, and the last is not zero |
| PosixCksum.DenotationIsUnique | server/crc.py:281-284 | octets without a zero in the highest place are determined by the number they denote |
| PosixCksum.FieldFeeds | client/crc.cpp:76-84 | any shortest field that denotes the length does to the register what the length loop does, also for length zero |
| PosixCksum.CksumIsPosix | client/crc.cpp:65-86 | a number is the standard's checksum of a message exactly when it is what the programs return, empty message included |
| PosixCksum.CksumDeterminesRegister | client/crc.cpp:76-86 | for each length, a checksum and the register it came from determine one another |
| PosixCksum.CksumsAgreeIffRegistersDo | client/crc.cpp:76-86 | equal-length messages have equal digests if and only if they have equal registers |
| PosixCksum.RegisterOfSum | client/crc.cpp:65-74 | from register 0, the register of the sum of equal-length messages is the sum of their registers |
| ClientCrc.CRC.constructor | client/crc.cpp:59-63 | a fresh engine has been fed nothing |
| ClientCrc.CRC.Update | client/crc.cpp:65-74 | the buffer's first `size` octets are appended to what was fed; register and wrapped count follow |
| ClientCrc.CRC.Digest | client/crc.cpp:76-86 | the digest with the length taken modulo 2^32; below 2^32 octets it is the standard's value |
| ClientCrc.CalculateCksum | client/client.cpp:461-476 | the client's checksum of a buffer is the standard's |
| ClientCrc.WrapShowsAtFourGigabytes | client/crc.cpp:73 | at 2^32 zero octets the wrapped count gives another value: the bound is needed |
| ServerCrc.Crc32.constructor | server/crc.py:267-269 | a fresh engine has been fed nothing |
| ServerCrc.Crc32.Update | server/crc.py:271-276 | the piece is appended to what was fed; register and count follow |
| ServerCrc.Crc32.Digest | server/crc.py:278-285 | the digest of everything fed, whatever the pieces, with an unbounded count |
| ServerCrc.CksumCalc | server/server.py:605-615 | a file read in 4096-octet pieces has the standard's checksum, hence the client's |
| BurstDetection.FeedIsFeedBits | client/crc.cpp:68-71 | feeding octets is feeding their bits one by one, most significant first |
| BurstDetection.BurstIsDetected | client/client.cpp:607 | distinct files of one length that agree outside a window of 32 consecutive bits have different checksums |
| BurstDetection.FourOctetsAreDetected | client/client.cpp:607 | other octets in up to four consecutive places always change the checksum |
| Text.LowerMeans | server/server.py:504 | exactly the letters from A to Z move, each by the distance between the cases |
| Text.LowerAgrees | server/server.py:504 | two names have one lower-case form if and only if they differ in the case of letters alone |
| Text.StripMeans | server/server.py:400 | stripping takes NULs off both ends, all of them, and nothing else |
| Text.PadMeans | client/fileitem.cpp:27 | the field holds the name from its start, cut at 255 octets, and NULs from there on |
| Text.PathIsSpelled | server/server.py:552 | a path is `files`, the id in digits and the name, with backslashes between |
| Text.StripPad | server/server.py:400 | stripping NULs undoes padding to 255, for names that fit and have no NUL at an edge |
| Text.PathInjective | server/server.py:552 | two (client id, file name) pairs have the same path string only if they are the same pair, whatever the name contains |
| Paths.PlainMeansInPlace | server/server.py:552-555 | a name stays in its client's directory under its own name if and only if it has no separator and is not empty, `.` or `..` |
| Paths.PlainPlacesDiffer | server/server.py:552-555 | plain names lead to one place on disk only for the same client and name |
| Paths.ClimbReaches | server/server.py:504-555 | with either separator, a name that goes up and down again leads from any client's directory to any other client's file |
| Server.Database.ClientExistsByName | server/database.py:35-51 | true if and only if some row carries exactly that name |
| Server.Database.ClientExistsById | server/database.py:54-70 | true exactly when the id is a key |
| Server.Database.FileExists | server/database.py:111-127 | true exactly when some row has that client id and file name |
| Server.Database.GetAesKeyOfClient | server/database.py:181-195 | the key in the row of that id, if there is a row and it has one |
| Server.Database.InsertNewClient | server/database.py:147-161 | adds the row; a taken id leaves the table alone |
| Server.Database.InsertKeysOfClient | server/database.py:164-178 | a scan after which the rows are the same, each row with the name holds both new keys, and every other row is unchanged |
| Server.Database.InsertFileDetails | server/database.py:212-227 | adds the row at its path; a taken path leaves the table alone |
| Server.Database.UpdateCksumVerification | server/database.py:230-242 | a scan after which the rows, owners and names are the same, and a flag differs only in rows of that id and file name, where it is the one given |
| Server.Database.DeleteFileOfClient | server/database.py:245-256 | a scan after which exactly the rows not of that id and file name are left, unchanged |
| Server.Database.GetClientList | server/database.py:94-108 | every row of the table once, in no particular order |
| Server.Database.GetFileList | server/database.py:130-144 | every row of the table once, in no particular order |
| Server.ClientRecord.AddFile | server/client.py:36-37 | the dictionary gains or replaces that one entry |
| Server.ClientRecord.RemoveFile | server/client.py:39-40 | the dictionary loses that one entry |
| Server.Server.HandleClientRegistration | server/server.py:390-431 | the handler's effect on all five stores and its answer; 2101 if and only if some row carries exactly the stripped name, otherwise 2100 with the fresh id |
| Server.Server.SendAesKeyToClient | server/server.py:433-487 | keys stored under the name in the payload, answer under the id; a payload of the wrong length changes nothing |
| Server.Server.HandleFileRequest | server/server.py:489-541 | nothing happens without a key, on a failed decryption or a failed write; otherwise the file is stored |
| Server.Server.WriteAndIndex | server/server.py:552-566 | disk, file index and the client's dictionary gain the file; a client without a record stops the work half-way |
| Server.Server.RecordUpload | server/server.py:572-577 | the row is inserted, or its flag taken back, by the guard on (id, file name) |
| Server.Server.ProcessFileContent | server/server.py:514-602 | the whole new state and the 2103 with size, padded name and the checksum of the octets on disk |
| Server.Server.HandleCksumOk | server/server.py:349-388 | the flag is set for the named file of this client, and 2104 answers |
| Server.Server.Unindex | server/server.py:302-307 | the path leaves both indexes, and only the path |
| Server.Server.HandleCksumErrFinal | server/server.py:268-322 | the file leaves disk, table and indexes; if the removal fails nothing changes and no answer is sent |
| Server.Server.HandleRequest | server/server.py:239-266 | dispatch by code, unknown ids refused first; the new stores and answer are those of the request's specification |
| Server.Server.LoadDataFromDatabase | server/server.py:104-136 | both indexes are the ones the tables determine, exactly when every file row has its client; otherwise the scan stops with every client indexed, none invented, the rows so far in both indexes and the orphan's path in one |
| Server.Server.LoadRow | server/server.py:128-133 | one file row extends both indexes by its entry |
| Server.Server.Restart | server/server.py:104-136 | from agreeing tables and indexes, whatever is on disk, rebuilding restores exactly the indexes that were there |
| StoreInvariants.RowIsAtItsPath | server/server.py:572-577 | a row matches (id, file name) exactly when it is the row at that pair's path |
| StoreInvariants.InsertsNeverCollide | server/server.py:402-415 | when the guard lets the `files` insert through, its primary key is free; client names stay unique |
| StoreInvariants.InsertByPath | server/server.py:572-577 | insert or update, the row at the pair's path is afterwards the unverified row of the upload, and no other row changes |
| StoreInvariants.UpdateByPath | server/database.py:230-242 | the update by (id, file name) is an update of the one row at the pair's path |
| StoreInvariants.DeleteByPath | server/database.py:245-256 | the deletion by (id, file name) is the removal of the one row at the pair's path |
| StoreInvariants.StoreFileIsPut | server/server.py:552-597 | an upload is a write at one path in table and indexes and at its place on disk |
| StoreInvariants.FinalIsDrop | server/server.py:294-307 | 1106 is a removal at one path and its place, answered; or, when the disk refuses, nothing and no answer |
| StoreInvariants.VerifyIsMark | server/server.py:371 | 1104 sets the flag of the one row at the path, if it is there |
| StoreInvariants.HandleKeepsIndexed | server/server.py:239-266 | every request, with any names, keeps tables and indexes in agreement, given fresh UUIDs |
| StoreInvariants.AgreementExactly | server/server.py:294-307 | a request keeps all five stores in agreement if and only if it touches no disk file or no other row's path leads to the file it touches |
| StoreInvariants.HandleKeepsOrder | server/server.py:552-577 | with plain names every request keeps all five stores in agreement |
| StoreInvariants.ReachableStatesAgree | server/server.py:239-266 | after any list of requests from empty stores, tables and indexes agree; if the names were plain, the disk agrees too |
| StoreInvariants.IndexedMeans | server/server.py:564-577 | file index, `pathname` column and the union of the clients' dictionaries have one key set and one (id, file name) per path; client index and table have one id set |
| StoreInvariants.AgreementMeans | server/server.py:552-577 | the files on disk are those the rows' paths lead to, one for each row |
| StoreInvariants.EntriesIsolation | server/server.py:268-388 | whatever the names, row, flag and index entries of any path the request does not name stay as they were |
| StoreInvariants.OctetsIsolation | server/server.py:552-561 | the octets at a place survive a request if and only if it writes or removes elsewhere, or leaves there what was there |
| StoreInvariants.FileIsolation | server/server.py:268-388 | row, flag, index entries and octets of a path stay as they were unless the request names it or its own path leads to the same place |
| StoreInvariants.PlainIsolation | server/server.py:268-388 | among plain names a request changes nothing of any file but the one it names |
| StoreInvariants.ClientsAreIsolated | server/server.py:514-577 | among plain names no request of one client changes any file of another |
| StoreInvariants.ClimbingUpload | server/server.py:504-561 | the input that breaks isolation: an upload named up and down again replaces another client's octets while that row keeps its flag |
| StoreInvariants.KeyStoredForId | server/server.py:447-460 | after an exchange the key read for an id is the new one if and only if the payload carried that row's name, or the key was the same before |
| StoreInvariants.RegistrationMeans | server/server.py:390-428 | refused, with no change, if and only if some row carries the stripped name; otherwise 2100 with the fresh id, one new row with that name and no keys, and one new entry in the client index |
| StoreInvariants.KeysMean | server/server.py:447-482 | both keys go into exactly the rows with the payload's name; the answer, under the sender's id, wraps the new key, or is absent when wrapping fails |
| StoreInvariants.UploadMeans | server/server.py:514-602 | without a key, or when decryption or the write fails, nothing; otherwise the new row, disk file, index entries and the 2103 in full |
| StoreInvariants.ConfirmationMeans | server/server.py:349-388 | always acknowledged; exactly the client's row of that name becomes verified |
| StoreInvariants.GivingUpMeans | server/server.py:268-322 | acknowledged unless the file is there and cannot be removed; then removed from table, disk and indexes |
| StoreInvariants.StrangersAreRefused | server/server.py:249-251 | an unknown id is refused whatever it asks, and changes nothing |
| StoreInvariants.SilentRequests | server/server.py:324-347 | a complaint, an unknown code and a key request of another length change nothing and are not answered |
| StoreInvariants.CaseIsIgnored | server/server.py:281 | names lead to one path if and only if, stripped, they differ in the case of letters alone; all three file handlers then treat them alike |
| StoreInvariants.FreshIdsMean | server/server.py:405 | one more call keeps ids fresh exactly when the id it draws is new to the table at its turn |
| Wire.RequestLayout | client/request.h:15-33 | all six requests octet by octet: id, version 3, code, payload size, payload, and what follows by code |
| Wire.ReplyLayout | server/server.py:426-597 | all five responses octet by octet: version 3, code, payload size, id, and what follows |
| Wire.LeMeans | server/server.py:179-184 | fields of two and four octets have the least significant first |
| Wire.UnLeLe | server/server.py:179-184 | a little-endian field read back is the number written, if it fits |
| Wire.HeaderFields | client/client.cpp:728-736 | the header's id, code and payload size are read back |
| Wire.FileFields | client/client.cpp:780-791 | the file header, name and content are read back as the server reads them |
| Wire.ReadEncoded | client/client.cpp:722-801 | one written request from a known client, or a registration, is read back whole and the stream stops at its end |
| Wire.ReadCutShort | server/server.py:498-509 | when the stream ends early, part of a name or content is taken for it, and part of a file header is neither handled nor answered |
| Wire.ReadCutHeader | server/server.py:180-184 | a header that ends early ends the session |
| Wire.ReadEncodedReply | server/server.py:583-597 | every response is read back field by field and the stream stops at its end |
| Wire.ResponseFraming | client/client.cpp:808-853 | any list of responses is read back as that list, with nothing left over |
| Wire.EchoNamesTheRow | client/client.cpp:588-605 | the padded name in a 2103, sent back, strips to the very file name of the row stored |
| Session.RequestFraming | server/server.py:168-214 | the session loop over any concatenated requests recovers that very list if and only if each is readable at its turn, and then consumes just those bytes, with the effects and answers of handling the list |
| Session.FirstSession | client/main.cpp:5-11 | registering under an unused name and then doing anything under the id just given is such a list |
| Session.KnownClientIsRead | server/server.py:239-266 | so is any list of one known client's requests |
| Session.SerialisableMeans | client/client.cpp:722-801 | which requests have a form on the wire: sizes below 2^32 and names of 255 octets |
| Session.AnswersAreSerialisable | server/server.py:583-597 | every answer the server gives has a form on the wire, if its cipher texts and files stay below 2^32 octets |
| Session.AlignedExactlyWhenKnown | server/server.py:249-251 | after any request the stream is aligned if and only if the sender is known, registers, or had nothing after its payload |
| Session.ReadFromStranger | server/server.py:217-237 | a request from an unknown id leaves all that follows its payload in the stream |
| Session.Connection.ReadBody | server/server.py:255-266 | what each code reads after the payload |
| Session.NextRequest | server/server.py:178-193 | the reads of one turn deliver the request the format says, or close |
| Session.Turn | server/server.py:176-203 | one turn reads one request, handles it and sends its answer, or ends the session |
| Session.RunSession | server/server.py:168-214 | a whole session's requests, stores, leftover input and output are those of handling the stream's requests in order |
| HexId.ClientIdToHex | client/client.cpp:547-561 | the stream loop writes two lower-case digits an octet |
| HexId.HexMeans | client/client.cpp:547-561 | digits 2i and 2i+1 are those of octet i, the higher first, in the alphabet 0 to 9, a to f |
| HexId.DigitsAreSpelled | client/client.cpp:146-169 | the value of each digit of either case |
| HexId.VerifyClientIdHex | client/client.cpp:117-139 | accepts exactly the strings of 32 hexadecimal digits of either case |
| HexId.HexToBytesArray | client/client.cpp:146-169 | every two digits become one octet |
| HexId.HexIsAccepted | client/client.cpp:547-564 | any octets written as digits are accepted and read back as themselves |
| HexId.HexOfUnhex | client/client.cpp:117-169 | any accepted string read and written again is its lower-case form |
| LineFiles.FileHandler.ReadLine | client/FileHandler.cpp:9-61 | delivers line n; succeeds also one past the last piece, with that piece, and on a missing file, with what the destination held |
| LineFiles.FileHandler.AppendLine | client/FileHandler.cpp:122-151 | the file grows by the line and a newline |
| LineFiles.FileHandler.WriteLine | client/FileHandler.cpp:160-216 | line n is replaced, or the line appended when there are fewer; the other lines stay; a missing file is created |
| LineFiles.ReadAllLines | client/FileHandler.cpp:172-182 | the loop delivers every piece, a final one only if it is not empty |
| LineFiles.SplitJoin | client/FileHandler.cpp:9-61 | splitting undoes joining newline-free lines, up to the empty piece at the end |
| LineFiles.SplitMeans | client/FileHandler.cpp:23-28 | for any file: the pieces hold no newline, are one more than the newlines, and give the file back |
| LineFiles.LineOfMeans | client/FileHandler.cpp:23-47 | a line is found if and only if its number is at most two more than the newlines, and which piece is delivered |
| LineFiles.LinesMean | client/FileHandler.cpp:178-182 | the lines, each ended by a newline, are the file, with a newline added where the last lacks it |
| LineFiles.ReplaceMeans | client/FileHandler.cpp:184-198 | for any file: after a line is written the lines are those before with that one replaced, or added at the end |
| ClientDetails.Client.SaveRegistrationDetails | client/client.cpp:525-574 | a missing file gets name and id; an existing one, and the id held, are left alone |
| ClientDetails.Client.SavePrivateKey | client/client.cpp:211-224 | line 3 is replaced or appended, if the file exists |
| ClientDetails.Client.LoadRegistrationDetails | client/client.cpp:69-110 | succeeds exactly on a file with an accepted id line and a third line, and what each field holds afterwards, failure included |
| ClientDetails.ThreeLines | client/client.cpp:525-574 | after one registration and one or more key saves the file is name, id and last key, three lines |
| ClientDetails.LoadAfterSaves | client/client.cpp:69-110 | loading after one registration and any number of key saves returns that id and the last key |
| ProtocolRuns.EveryRunKeepsInv | client/client.cpp:580-664 | every run keeps tables and indexes in agreement and every client's mail, key and counter in order; a plainly named run also the disk, and verified rows honest |
| ProtocolRuns.EveryRunAgrees | server/server.py:552-577 | after every interleaved run tables and indexes agree, and after a plainly named one all five stores |
| ProtocolRuns.VerifiedIsHonest | server/server.py:371 | after every plainly named run a verified row's file on disk has the checksum of the octets its client had read for the upload stored |
| ProtocolRuns.HonestUnlessShared | server/server.py:540-577 | another row stays honest after an upload if and only if the upload's path leads elsewhere or the checksums coincide |
| ProtocolRuns.KeysAgree | client/client.cpp:244-266 | after every run, with no exchange pending and RSA wrapping sixteen-octet keys, a client's key is the one the server looks up for its id |
| ProtocolRuns.RetryBudget | client/client.cpp:607-657 | after every run the counter is between 1 and 4 and one more than the 1105s since the start or the last 1106 |
| ProtocolRuns.OthersUnmoved | server/server.py:447-460 | another client's request, under its own name, leaves this client's row as it was, and with plain names its files and `source` |
| ProtocolRuns.ServeFileStored | server/server.py:540-577 | storing an upload takes the flag back and answers with the checksum of what is now on disk, so nothing verified turns false |
| ProtocolRuns.RestartKeepsInv | server/server.py:104-136 | a restart of server and clients changes no store and keeps the invariant |
| ProtocolRuns.JoinOutcome | server/server.py:402-415 | a newcomer is added, with its row, if and only if no row carries its name |
| ProtocolRuns.ReactMeans | client/client.cpp:607-658 | the client's step on a 2103 in full: 1104; or 1105 and a 1103 with what a new reading finds; or, at the fourth, 1106 |
| ProtocolRuns.UndamagedUploadIsVerified | README.md:2-16 | after any run: register, exchange keys, upload undamaged, and the row is verified, the disk holds the file, and the client has sent 1103 and 1104 |
| ProtocolRuns.DamagedUploadIsSentAgain | README.md:15-17 | after any run: register, exchange keys, upload damaged, and the damaged octets are stored unverified while the client sends 1105 and 1103 with what a new reading finds |
| ProtocolRuns.EveryoneIsNewAtTheStart | server/server.py:402-405 | such newcomers exist |
| ProtocolRuns.PlainRunMeans | server/server.py:552 | such a run stays plainly named exactly when its upload's name is plain |
| ProtocolRuns.LeavingMeans | client/client.cpp:4-8 | a new client process starts with its name alone, its count at 1 |
| Protocol.PlainLibraryIsSound | client/client.cpp:696-709 | the demands on the RSA library can be met |
| KeyExchange.Client.GenerateRSAKeyPair | client/client.cpp:229-281 | the exchange is answered exactly when the public key fills its field and the server can wrap for it; with a working pair the client's AES key is then the one the server drew and looks up for the client's id, whatever other clients asked meanwhile |
| KeyExchange.Client.ReceiveResponseFromServer | client/client.cpp:808-853 | the answer, if there is one, settles the key held; without one the client waits and nothing changes |
| KeyExchange.Client.HandleAESKeyFromServer | client/client.cpp:696-716 | the key held is the unwrapped one, or the old one when unwrapping fails |
| KeyExchange.KeyAnswer | server/server.py:433-487 | a client presenting its own name gets, wrapped, the very key stored in the row of its id; a public key of another length changes nothing |
| Upload.Link.Interfere | server/server.py:156-163 | any list of other clients' requests, under plain names, leaves the stores as those requests, handled in turn, leave them: this client's row and files as they were, and all five in agreement |
| Upload.OthersMayAct | server/server.py:156-163 | what other clients are free to do meanwhile: register, ask for keys under their own name, and anything about plainly named files |
| Upload.Link.Send | client/client.cpp:722-801 | one request is handled after whatever others do, and its answer, if any, awaits reading |
| Upload.Client.LoadFileContent | client/client.cpp:368-423 | the checksum remembered is that of the very octets encrypted |
| Upload.Client.SendFileToServer | client/client.cpp:287-331 | a whole upload: requests sent, each whole with the encrypted file in every 1103, counter, number of attempts, final stores, and whether the last request is answered are those its verdicts determine; directly: after a first match at attempt k, (1105, 1103) k-1 times and 1104, the row verified over the octets stored; when attempt 1 arrives undamaged, 1103 and 1104, and the file itself on disk, verified; after mismatches throughout, the remaining retries and 1106, the file gone from all five places, or, if it cannot be removed, still there and no answer |
| Upload.Client.FinishedIsConcluded | README.md:16-18 | the course of an upload spelled out for its two answered endings: whole trace, counter, and the final row and octets or their absence |
| Upload.Client.ReceiveResponseFromServer | client/client.cpp:808-853 | 2104 ends the matter without a change, 2103 starts the comparison and its consequences, and no answer leaves the client waiting |
| Upload.Client.HandleResponse | client/client.cpp:482-519 | dispatch of an answer, with the same consequences |
| Upload.Client.HandleFileResponse | client/client.cpp:580-664 | the comparison and everything after it: confirm, try again, or give up at the fourth attempt, and whether it is answered |
| Upload.Client.ReSendFileToServer | client/client.cpp:669-690 | reads, encrypts, sends and waits, with the rest of the upload's consequences |
| Upload.Client.SendFinal | client/client.cpp:639-658 | after 1106 the file is gone from all five places and the answer there, or, if it cannot be removed, the file is there and the answer is not |
| Upload.MatchAtAttempt | client/client.cpp:607-636 | if attempt k is the first to match within the count, the requests are k-1 retries and 1104, and the counter keeps the retries |
| Upload.AllMismatch | client/client.cpp:619-658 | if all remaining attempts mismatch, the requests are the remaining retries and 1106, and the counter is 1 again |
| Upload.RetriesMean | client/client.cpp:619-636 | a retry is a 1105 and a 1103 that carries the encryption of the next reading |
| Upload.SpoiledUploadIsNotAnswered | server/server.py:540-602 | an input without an answer: the padding is damaged, nothing is stored or sent back, and the client waits for ever after its 1103 |
| Upload.StepFollowsCourse | client/client.cpp:607-658 | when the interleaved client's step takes a 2103, it sends just the requests that come next on the client program's course, and end and counter agree |
| FirstRun.RegisterToServer | client/client.cpp:174-203 | registering under an unused name is answered with the fresh id, and the table has the row |
| FirstRun.RunClient | client/main.cpp:5-11 | a whole first run with other clients at work: the key both sides hold, and, if the upload arrives undamaged, the file on disk as it was read and its row verified |
| Upload.BurstIsRefused | client/client.cpp:607 | a file damaged in transit only inside 32 consecutive bits is never confirmed |

Where code and documentation differ, the code is followed: README.md:17 speaks of the first three
retrials, and the counter also spans uploads, since a match does not reset it (`Upload.MatchAtAttempt`).
The standard gives every message at least one length octet; the programs give an empty file none, and
`PosixCksum.CksumIsPosix` covers that case.

## Left out

- AES, RSA and Base64: a record of functions; where a property needs it, unwrapping undoes wrapping of a sixteen-octet key for a matching pair and a public key has 160 octets. Nothing is assumed of AES. A decryption that fails changes nothing and is not answered.
- Sockets: each direction is a byte stream with exact reads; short reads, timeouts, accepting and connection errors are not modelled. A client that leaves drops what it had not sent or read. A client left without an answer waits in `Upload`; in `Protocol` it may also go on, which only adds runs.
- Thread interleaving inside a handler: the check and insert of server/server.py:402-415 are not atomic in the program, so invariants are stated between whole requests.
- SQLite beyond two keyed tables, `last_seen`, printing, host and port files.
- Randomness: a UUID is any 16 octets new to the table, an AES key any octets, each supplied from outside.
- Names that are empty, not ASCII, longer than 255 octets or edged with NULs where a round trip is claimed; UTF-8 decoding errors.
- Paths: separators, `.` and `..` are followed; trailing dots and spaces, stream suffixes and device names of Windows are not, nor whether a directory exists, nor a way that climbs above the server's directory and comes back by that directory's name, nor what a climbing name does to the server's own files.
- Disk writes that stop half-way: a write or removal happens whole or not at all.
- Client files of 2^32 octets and more, whose size the client truncates; a local file that vanishes between two attempts; the unused `Client::calculateCksum(std::string)`, `Client::disconnect` and the four-argument `FileItem` constructor.
- Line ends: the text-mode translation of newlines on Windows is its own inverse and not shown; line number 0, which no caller passes.
- Digests of files of different lengths: not claimed distinct, as the appended length is not prefix-separated.
- Dishonest clients and damaged headers or responses: the channel changes file contents only, and clients send their own registered name. `StoreInvariants.KeyStoredForId` says exactly what another name does.
- ProtocolRuns.KeysAgree: says nothing while an exchange is pending, when the server already holds the new key and the client still the old one.
- ProtocolRuns.VerifiedIsHonest: plain names only, as `StoreInvariants.ClimbingUpload` shows they must be; and equal checksums, not equal octets; equality of octets follows only for damage that `BurstDetection.BurstIsDetected` covers.
- Upload.Client.SendFileToServer: while the upload runs, the server key of this client is fixed, because one session per client id is live.
